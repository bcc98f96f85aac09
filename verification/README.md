# MicroShell, modelled in Dafny

MicroShell is a micro-frontend administration console. An Angular shell application
hosts three remote applications (users, reports, dashboard). A FastAPI back end
serves authentication, user management and dashboard metrics.

This project models the deterministic core of both halves as immutable datatypes
and pure transition functions, and proves properties of them.

**Client side**
- `Session`: the browser session kept by the authentication service. Local storage is a map from keys to strings. The access token and the current user are plain fields. Every HTTP outcome is an input, and each transition returns the requests it issued.
- `Shell`: the shell's route table, the authentication guard and the shell root component (login form, logout, loading overlay).
- `ShellUsers`: the shell's built-in users page (search, role labels, add, delete).
- `UtentiApp`, `ReportApp`, `DashboardApp`: the remote applications' list, pagination, modal and form logic.
- `Button`: the shared button component's click gate, disabled attribute and CSS classes.
- `Pagination`: the offset and `has_next`/`has_prev` arithmetic, plus the client-side page stepping.

**Server side**
- `Store`: the database, as sequences of roles, users and metrics in id order with the next free ids. `Store.Valid` holds the ORM models' unique ids and columns, the users' role reference, and ids below the next free id. Left out names what it does not hold.
- `UsersApi`, `AuthApi`, `MetricsApi`: the routes. Each endpoint is a function from a store and a request to a new store and a result, or an HTTP error with its status and detail.
- `InitDb`: the database initialisation script.
- `Schemas`: the request validators.
- `Like`: SQL `ILIKE` pattern matching, used by user search.
- `Text`: the string helpers the code relies on. These are lower-casing, digit parsing and printing, Python's `isalnum`, and the space-run replacement.
- `Wrappers`: `Option` and `Result`.

JWT creation and decoding, password hashing and verification are opaque. They are fields of the `AuthApi.Crypto` record, a parameter of every route that needs them. The clock and the random sample values are parameters too.

## Model

| member | source | states |
|---|---|---|
| Session.Rehydrate | libs/services/src/lib/auth.service.ts:22-30 | start-up publishes a token and a user only when both stored keys are present and non-empty; otherwise both stay null; an unparsable stored user is an error; storage is untouched |
| Session.Login | libs/services/src/lib/auth.service.ts:32-51 | POST /login is issued first; success needs both the login and the /me reply; success stores both tokens and the user and publishes them; any failure ends logged out; keys other than the three session keys never change |
| Session.FetchMe | libs/services/src/lib/auth.service.ts:53-57 | GET /me carries the current bearer header; a reply stores and publishes the user; a failure logs out and surfaces the HTTP error |
| Session.Logout | libs/services/src/lib/auth.service.ts:59-66 | removes exactly the three session keys, leaves every other key as it was, and nulls token and user |
| Session.LogoutIdempotent | libs/services/src/lib/auth.service.ts:59-66 | logging out twice is the same as logging out once |
| Session.Refresh | libs/services/src/lib/auth.service.ts:68-93 | with no stored refresh token it logs out and issues no request; success overwrites only the access token and the user and keeps the stored refresh token; any failure ends logged out |
| Session.IsAuthenticated | libs/services/src/lib/auth.service.ts:101-103 | true iff the token is present and non-empty (JavaScript `!!`) |
| Session.AuthHeaders | libs/services/src/lib/auth.service.ts:113-119 | always a JSON content type and `Bearer ` followed by the token, including the literal `Bearer null` when there is no token |
| Session.RestartAfterLogout | libs/services/src/lib/auth.service.ts:22-30 | a restart after logout rehydrates to the logged-out client |
| Session.RestartAfterLogin | libs/services/src/lib/auth.service.ts:22-44 | a restart after a successful login rehydrates the same token and user, given a round-tripping user codec |
| Shell.CanActivate | apps/shell/src/app/guards/auth.guard.ts:15-26 | allows iff there is a current user; a denial always redirects to `/` |
| Shell.GuardDependsOnlyOnUser | apps/shell/src/app/guards/auth.guard.ts:16-23 | two clients with the same user get the same decision; a token without a user (mid-login) is denied |
| Shell.FirstMatch | apps/shell/src/app/app.module.ts:13-42 | the chosen route is in the table, matches the URL, and no earlier route matches it (the router takes the first match in order); there is no match iff no route in the table matches |
| Shell.Resolve | apps/shell/src/app/app.module.ts:13-42 | every URL has a matching route, since the table ends with the `**` wildcard, and its action is that of the first route that matches |
| Shell.ResolveTable | apps/shell/src/app/app.module.ts:14-41 | `/` redirects to `/login`; `/login` mounts the login view unguarded; dashboard, utenti and report mount their module behind the guard; every other URL redirects to `/login` |
| Shell.GuardedRoutes | apps/shell/src/app/app.module.ts:23-37 | exactly the three feature paths are guarded; every redirect lands on the unguarded login view in one more step |
| Shell.NavigationSettles | apps/shell/src/app/app.module.ts:14-22 | every navigation settles within a fixed number of hops; without a user it always ends at the login view; with a user a mounted route is activated where it is |
| Shell.Navigate | apps/shell/src/app/guards/auth.guard.ts:15-26 | an activated outcome mounts what the table gives for its URL; a guarded route is activated only when the guard allows, that is with a signed-in user; an unguarded route is activated at once where it is |
| Shell.LoginChain | apps/shell/src/app/app.module.ts:14-22 | `/login` activates the login view at once, and `/` reaches it after one redirect, whoever is signed in |
| Shell.OnUserEmission | apps/shell/src/app/app.component.ts:53-65 | after an emission `isAuthenticated` holds iff there is a user; it redirects to /dashboard only when authenticated at exactly `/`; other fields are untouched |
| Shell.BeginLogin | apps/shell/src/app/app.component.ts:69-70 | clears the error and raises `isLoggingIn` before the request, changing nothing else |
| Shell.OnLogin | apps/shell/src/app/app.component.ts:67-91 | an invalid form changes nothing and sends nothing; a valid form runs the session login, `isLoggingIn` is false after either outcome, success navigates to /dashboard, failure shows the error text |
| Shell.LoginErrorText | apps/shell/src/app/app.component.ts:86 | the server's non-empty `detail` when there is one, the fixed fallback otherwise; never empty |
| Shell.Logout | apps/shell/src/app/app.component.ts:93-96 | the session is logged out, the view is unauthenticated and the only navigation is to `/` |
| Shell.ShowLoading | apps/shell/src/app/app.component.ts:99-102 | raises the overlay with the given or default message, touching nothing else |
| Shell.HideLoading | apps/shell/src/app/app.component.ts:104-107 | lowers the overlay and empties the message, touching nothing else |
| Shell.HideUndoesShow | apps/shell/src/app/app.component.ts:99-107 | hiding after showing restores an idle view exactly |
| ShellUsers.FilterUsers | apps/shell/src/app/features/utenti/utenti.component.ts:410-421 | an empty term gives the users unchanged; otherwise the result is the order-preserving selection by lower-cased term |
| ShellUsers.SelectSpec | apps/shell/src/app/features/utenti/utenti.component.ts:413-419 | a user is kept iff its email, username or full name contains the term; multiplicities are kept and the result is a subsequence of the input |
| ShellUsers.SelectEmptyTerm | apps/shell/src/app/features/utenti/utenti.component.ts:411-412 | the empty term keeps every user in order |
| ShellUsers.RoleLabel | apps/shell/src/app/features/utenti/utenti.component.ts:423-430 | admin, manager and user get their Italian labels; any other role is shown unchanged |
| ShellUsers.AddUser | apps/shell/src/app/features/utenti/utenti.component.ts:432-446 | an invalid form changes nothing; otherwise exactly one active user with id `length + 1` and no last login is appended, the form is reset (role `user`) and the filtered list is recomputed |
| ShellUsers.FormValid | apps/shell/src/app/features/utenti/utenti.component.ts:352-357 | a valid add form has all four fields present, an email the email validator accepts and a username of at least 3 characters; the form as built (empty email, username and full name) is not valid |
| ShellUsers.DeleteUser | apps/shell/src/app/features/utenti/utenti.component.ts:452-457 | unconfirmed changes nothing; confirmed keeps exactly the users with another id, in order and with their multiplicities, and recomputes the filtered list |
| ShellUsers.KeepOthers | apps/shell/src/app/features/utenti/utenti.component.ts:454 | `filter(u => u.id !== userId)`: a subsequence of the input in which every row with another id keeps its multiplicity and every row with that id is gone |
| ShellUsers.DeleteKeepsIdsUnique | apps/shell/src/app/features/utenti/utenti.component.ts:452-457 | deleting preserves unique ids |
| ShellUsers.AddAfterDeleteReusesId | apps/shell/src/app/features/utenti/utenti.component.ts:436 | as written: from users 1 and 2, delete 1, add: the ids are no longer unique, both users having id 2 |
| ShellUsers.AddUserWithFreshId | apps/shell/src/app/features/utenti/utenti.component.ts:432-446 | corrected: the same addition with an id above every existing id, which preserves unique ids |
| UtentiApp.PasswordRuleOnlyWhenRequired | apps/utenti/src/app/app.component.ts:67-76 | a short password is accepted only when the password is not required, as in edit mode |
| UtentiApp.NewFormInvalid | apps/utenti/src/app/app.component.ts:67-76 | a freshly opened create form (all fields empty) never sends a request |
| UtentiApp.OnSearchEmission | apps/utenti/src/app/app.component.ts:85-88 | a search emission resets to page 1 and reloads that page with the term |
| UtentiApp.LoadUsers | apps/utenti/src/app/app.component.ts:91-96 | raises the loading flag, clears the error and requests the current page and term |
| UtentiApp.OnUsersLoaded | apps/utenti/src/app/app.component.ts:97-109 | a reply replaces the users and totals; a failure sets the fixed error and keeps the users; loading ends either way |
| UtentiApp.PreviousPage | apps/utenti/src/app/app.component.ts:138-143 | steps back and reloads iff above page 1, so the page stays at least 1; otherwise nothing changes |
| UtentiApp.NextPage | apps/utenti/src/app/app.component.ts:145-150 | steps forward and reloads iff below the page count and never passes it; otherwise nothing changes |
| UtentiApp.PagingRoundTrip | apps/utenti/src/app/app.component.ts:138-150 | a step forward followed by a step back returns to the same page |
| UtentiApp.OpenCreateUserModal | apps/utenti/src/app/app.component.ts:153-158 | create mode, nothing selected, modal shown, an empty form that requires a password |
| UtentiApp.ViewUser | apps/utenti/src/app/app.component.ts:160-164 | view mode with the user selected and the form untouched |
| UtentiApp.EditUser | apps/utenti/src/app/app.component.ts:166-185 | edit mode with the user selected; the form holds the user's fields, the role id as text and an empty, optional password |
| UtentiApp.EditThenSave | apps/utenti/src/app/app.component.ts:166-258 | saving right after editing a user sends an update iff the user's own username (at least 3 characters), full name and email are filled, and the update carries exactly the user's own values, the role id surviving its round trip through the form's string and `parseInt` |
| UtentiApp.FormValid | apps/utenti/src/app/app.component.ts:67-76 | a valid form has username, full name, email and role filled, an email the email validator accepts and a username of at least 3 characters, and while the password validators are on a password of at least 6 characters |
| UtentiApp.ResetForm | apps/utenti/src/app/app.component.ts:260-266 | after `reset()` no form is valid, whatever the email check says, and whether a password is required is unchanged |
| UtentiApp.SaveUser | apps/utenti/src/app/app.component.ts:204-258 | an invalid form changes nothing and sends nothing; a valid form raises `isSaving`; create sends the form's fields; edit sends an update of the selected user with the form's username, full name, email and active flag, and nothing when no user is selected. Either way the role id is `parseInt` of the form's text, `NaN` included |
| Text.JsParseIntToString | apps/utenti/src/app/app.component.ts:214 | `parseInt` reads back every integer printed in decimal |
| Text.JsParseIntDigits | apps/utenti/src/app/app.component.ts:214 | a string of decimal digits reads as its decimal value |
| Text.JsParseIntNegative | apps/utenti/src/app/app.component.ts:214 | a minus sign followed by decimal digits reads as the negated value |
| Text.JsParseIntNoDigit | apps/utenti/src/app/app.component.ts:237 | a string with no decimal digit is `NaN` |
| Text.JsParseIntStopsAtLetter | apps/utenti/src/app/app.component.ts:237 | reading stops at the first non-digit: `"2abc"` is 2 |
| Text.JsParseIntHex | apps/utenti/src/app/app.component.ts:237 | a `0x` prefix switches to hexadecimal: `"0x1F"` is 31 |
| Text.JsParseIntNaN | apps/utenti/src/app/app.component.ts:237 | `"abc"` is `NaN` |
| Text.JsParseInt | apps/utenti/src/app/app.component.ts:214 | a number is read only when the text holds a decimal digit (the `0` of a `0x` prefix included), otherwise the result is `NaN`; the lemmas above pin the value |
| UtentiApp.OnSaved | apps/utenti/src/app/app.component.ts:214-256 | success closes the modal and reloads the current page; failure only ends saving |
| UtentiApp.DeleteUserRequest | apps/utenti/src/app/app.component.ts:187-202 | a delete request is sent iff the user confirms, and it names that user |
| UtentiApp.CloseModal | apps/utenti/src/app/app.component.ts:260-266 | hides the modal, returns to view mode, clears the selection and the saving flag, resets the form |
| ReportApp.BuildParameters | apps/report/src/app/app.component.ts:133-147 | user_activity gives only include_inactive; system_performance only detailed_metrics; audit_log only a non-empty log_level; anything else nothing |
| ReportApp.ParameterKeysFollowType | apps/report/src/app/app.component.ts:133-147 | the keys depend only on the type, and for audit logs on whether a level is set; there is at most one key |
| ReportApp.BuildDateRange | apps/report/src/app/app.component.ts:149-157 | a range exists iff both dates are non-empty, and it copies them unchanged |
| ReportApp.GenerateReport | apps/report/src/app/app.component.ts:101-131 | a request is sent iff the form is valid; it carries the type, title, format, parameters and date range built from the form |
| ReportApp.OnGenerated | apps/report/src/app/app.component.ts:111-128 | success resets the form and reloads; failure only ends generation |
| ReportApp.ResetForm | apps/report/src/app/app.component.ts:159-166 | the reset form has its defaults and is not submittable |
| ReportApp.TotalPages | apps/report/src/app/app.component.ts:90 | the page count is the ceiling of total over the page size |
| ReportApp.OnReportsLoaded | apps/report/src/app/app.component.ts:80-99 | a reply replaces the reports, the total and the page count; a failure sets the fixed error; loading ends |
| ReportApp.PreviousPage | apps/report/src/app/app.component.ts:173-178 | steps back and reloads iff above page 1; otherwise nothing changes |
| ReportApp.NextPage | apps/report/src/app/app.component.ts:180-185 | steps forward and reloads iff below the page count; otherwise nothing changes |
| ReportApp.PagingStaysWithinReports | apps/report/src/app/app.component.ts:173-184 | after a load, a step forward or back keeps the page between 1 and the page count, on a page that holds at least one report |
| ReportApp.ViewReport | apps/report/src/app/app.component.ts:187-190 | shows the modal with that report selected |
| ReportApp.CloseReportModal | apps/report/src/app/app.component.ts:192-195 | hides the modal and clears the selection |
| ReportApp.CloseUndoesView | apps/report/src/app/app.component.ts:187-195 | closing after viewing restores the state |
| ReportApp.FileExtension | apps/report/src/app/app.component.ts:204-212 | always one of csv, json, pdf, xlsx; a known format maps to itself and anything else to csv |
| ReportApp.FileExtensionIdempotent | apps/report/src/app/app.component.ts:204-212 | mapping twice is mapping once |
| ReportApp.DownloadReport | apps/report/src/app/app.component.ts:197-202 | acts iff the report is completed; the file name is the title with space runs made `_`, then `_`, the id, `.` and the extension |
| ReportApp.RequestedFormat | apps/report/src/app/app.component.ts:199-200 | never empty; either `csv` or the report's `format` parameter, and `csv` when the report has no `format` parameter |
| Text.ReplaceSpaceRuns | apps/report/src/app/app.component.ts:199 | the result holds no white space and is no longer than the input |
| Text.ReplaceSpaceRunsIdentity | apps/report/src/app/app.component.ts:199 | a title without white space is left unchanged |
| ReportApp.DownloadNameHasNoSpace | apps/report/src/app/app.component.ts:199 | the file name contains no space (given an id without one) |
| ReportApp.FormatReportType | apps/report/src/app/app.component.ts:243-251 | the four known types get their labels; anything else is shown unchanged |
| ReportApp.FormatReportTypeFixedPoints | apps/report/src/app/app.component.ts:243-251 | a string is its own label iff it is not a known type; distinct known types get distinct labels |
| DashboardApp.JsRemBounds | apps/dashboard/src/app/app.component.ts:314-315 | JavaScript `%` by 86400 or 3600: the remainder takes the dividend's sign, is smaller than the divisor in magnitude, and is the floored remainder for a non-negative dividend |
| DashboardApp.JsRem | apps/dashboard/src/app/app.component.ts:314-315 | JavaScript `%`: the remainder differs from the dividend by a whole multiple of the divisor |
| DashboardApp.UptimeParts | apps/dashboard/src/app/app.component.ts:310-318 | the uptime is a JavaScript number, so fractions are allowed. A missing value (`undefined`, `null`, `NaN`) or zero gives no parts. Otherwise the parts are `Math.floor` of the seconds over 86400, of the day remainder over 3600 and of the hour remainder over 60 |
| DashboardApp.FormatUptime | apps/dashboard/src/app/app.component.ts:310-318 | `N/A` exactly when there are no parts, otherwise `Xd Yh Zm` from the parts |
| DashboardApp.UptimeIsSpan | apps/dashboard/src/app/app.component.ts:313-317 | for any positive input, fractional seconds included, hours are below 24, minutes below 60, and the span lies within the last minute of the input |
| DashboardApp.UptimeExamples | apps/dashboard/src/app/app.component.ts:310-318 | half a second prints `0d 0h 0m`; a missing count prints `N/A` |
| DashboardApp.SpanUnique | apps/dashboard/src/app/app.component.ts:313-317 | such a decomposition is unique |
| DashboardApp.UpdateMetricsCards | apps/dashboard/src/app/app.component.ts:109-138 | no metrics leave the cards alone; otherwise exactly four cards with fixed titles and change figures, showing the grouped user, active-user and session counts and the rounded average duration in minutes |
| DashboardApp.CardsShape | apps/dashboard/src/app/app.component.ts:110-137 | only the last card reports a fall, and the four titles are distinct |
| DashboardApp.Round | apps/dashboard/src/app/app.component.ts:133 | `Math.round`: the nearest integer, halves rounded up |
| DashboardApp.DestroyCharts | apps/dashboard/src/app/app.component.ts:256-261 | the chart map ends empty and every chart that was in it is destroyed |
| DashboardApp.StartLoad | apps/dashboard/src/app/app.component.ts:62-65 | raises loading and clears the error, keeping the data |
| DashboardApp.OnMetrics | apps/dashboard/src/app/app.component.ts:67-79 | a reply stores the metrics and refreshes the cards; a failure sets the fixed error and ends loading |
| DashboardApp.OnHealth | apps/dashboard/src/app/app.component.ts:95-106 | ends loading; a reply stores the health and a failure keeps the old one |
| DashboardApp.LoadingEndsWithHealth | apps/dashboard/src/app/app.component.ts:62-107 | whatever the order of the two replies, loading ends once both are in; a successful metrics reply alone does not end it; a metrics failure leaves its error |
| Button.NativeDisabled | libs/ui/src/lib/components/button/button.component.ts:14 | the native attribute is `disabled || loading` |
| Button.OnClick | libs/ui/src/lib/components/button/button.component.ts:154-158 | emits the event, once, iff neither disabled nor loading |
| Button.ClickGateMatchesAttribute | libs/ui/src/lib/components/button/button.component.ts:145-158 | a click emits iff the native attribute is off; the default button emits |
| Button.ButtonClasses | libs/ui/src/lib/components/button/button.component.ts:160-162 | the class string starts with `btn btn-` |
| Button.ClassesRoundTrip | libs/ui/src/lib/components/button/button.component.ts:160-162 | variant and size are recovered from the class string |
| Button.ClassesInjective | libs/ui/src/lib/components/button/button.component.ts:160-162 | equal class strings mean equal variant and size |
| Pagination.CeilDiv | backend/app/routes/users.py:54 | the smallest page count whose pages cover the total |
| Pagination.Offset | backend/app/routes/users.py:53 | SQL `OFFSET k`: the rows after the first k, none when k passes the end |
| Pagination.Limit | backend/app/routes/users.py:53 | SQL `LIMIT n`: the first n rows, or all when fewer |
| Pagination.Paginate | backend/app/routes/users.py:52-58 | the page is the `OFFSET (page-1)*per_page LIMIT per_page` window, the slice from that offset up to `page*per_page` or the end, and empty past the end; has_prev iff page > 1; has_next iff `page*per_page < total` |
| Pagination.HasNextIff | backend/app/routes/dashboard.py:98-105 | `page < ceil(total/per_page)` iff `page*per_page < total` |
| Pagination.PreviousPage | apps/utenti/src/app/app.component.ts:138-143 | steps back iff above 1 and never below 1 |
| Pagination.NextPage | apps/utenti/src/app/app.component.ts:145-150 | steps forward iff below the page count and never past it |
| Pagination.SteppingStaysInRange | apps/report/src/app/app.component.ts:173-185 | from a page within range, both steps stay within range |
| Like.PercentMatchesAll | backend/app/routes/users.py:35-40 | `%` matches every string |
| Like.LiteralThenPercent | backend/app/routes/users.py:35-40 | a wildcard-free literal followed by `%` matches exactly its extensions |
| Like.SurroundedLiteral | backend/app/routes/users.py:35-40 | `%term%` matches exactly the strings containing a wildcard-free term |
| Like.ContainsIgnoringCaseIsInfix | backend/app/routes/users.py:35-40 | case-insensitive `%term%` is lower-cased substring search |
| Like.UnderscoreIsWildcard | backend/app/routes/users.py:36-38 | a `_` in the search term matches any character |
| Store.EmptyValid | backend/app/models/user.py:22-47 | the empty database satisfies the model constraints |
| Store.AddRole | backend/app/models/user.py:22-29 | a role gets the next role id and is appended; nothing else changes |
| Store.AddRoleValid | backend/app/models/user.py:25 | adding a role with a fresh name keeps the database valid |
| Store.EnsureRole | backend/app/routes/users.py:120-128 | an existing role of that name is used and the database is unchanged; otherwise the role is created; the id always resolves |
| Store.EnsureRoleValid | backend/app/routes/auth.py:85-91 | the lookup-or-create keeps the database valid and leaves a role of that name |
| Store.AddUser | backend/app/models/user.py:36-47 | exactly one row is appended, carrying the next user id, the given column values and no last login; roles, metrics and the other counters are unchanged |
| Store.AddUserValid | backend/app/models/user.py:39-47 | a user with a fresh email and username and an existing role keeps the database valid, and the new id finds the appended row |
| Store.SetUser | backend/app/routes/users.py:191-195 | replaces one user in place; nothing else changes |
| Store.SetUserValid | backend/app/models/user.py:39-47 | an update that keeps the id, keeps or frees the email and username, and names an existing role keeps the database valid |
| Store.RemoveUserValid | backend/app/routes/users.py:225-226 | removing a user keeps the database valid |
| Store.RemoveMetricValid | backend/app/routes/dashboard.py:203-204 | removing a metric keeps the database valid |
| UsersApi.Filter | backend/app/routes/users.py:32-47 | keeps a user iff the search, role and active filters all admit it |
| UsersApi.ListUsers | backend/app/routes/users.py:19-67 | 422 iff page < 1 or per_page is outside 1..100; otherwise the total counts the filtered users, the items are their `OFFSET (page-1)*per_page LIMIT per_page` window in id order, and has_prev and has_next follow the page |
| UsersApi.SearchIsSubstring | backend/app/routes/users.py:35-40 | for a wildcard-free term the search is case-insensitive substring match on email, username or full name |
| UsersApi.GetUser | backend/app/routes/users.py:69-84 | 404 iff no user has that id, otherwise that user |
| UsersApi.CreateUser | backend/app/routes/users.py:86-146 | 400 for a taken email, then a taken username, then an unknown non-zero role id, each check stated in both directions; the request succeeds iff all three pass, appending one unverified user with the requested fields and the requested or default `user` role |
| UsersApi.CreateUserValid | backend/app/routes/users.py:96-139 | creation keeps the database valid; without a role id the user gets the `user` role |
| UsersApi.ApplyPatch | backend/app/routes/users.py:189-190 | exactly the supplied fields change |
| UsersApi.UpdateUserAsWritten | backend/app/routes/users.py:148-200 | as written: 404 for an unknown id; then 400 for a changed email another user holds, then a changed username another user holds, then an unknown role id other than 0 (the check runs only for a truthy role id); the update succeeds iff none of these applies, and then exactly the supplied fields change |
| UsersApi.UpdateRoleZeroBreaksStore | backend/app/routes/users.py:184-190 | as written: a patch with role id 0 succeeds and leaves a user whose role does not exist |
| UsersApi.UpdateUser | backend/app/routes/users.py:148-200 | corrected: 404 for an unknown id; then 400 for a changed email another user holds, then a changed username another user holds, then any unknown role id; the update succeeds iff none of these applies, and then exactly the supplied fields change |
| UsersApi.UpdateUserValid | backend/app/routes/users.py:158-195 | the corrected update keeps the database valid |
| UsersApi.DeleteUser | backend/app/routes/users.py:202-228 | 404 for an unknown id; 400 for the caller's own id; otherwise exactly that user is removed |
| UsersApi.DeleteUserValid | backend/app/routes/users.py:202-228 | deletion keeps the database valid and the id is gone |
| UsersApi.ActivateUser | backend/app/routes/users.py:241-260 | 404 iff unknown; otherwise only that user's active flag becomes true, with no self-check |
| UsersApi.DeactivateUser | backend/app/routes/users.py:262-288 | 404 for an unknown id; 400 for the caller's own id; otherwise only that user's active flag becomes false |
| UsersApi.ActivationValid | backend/app/routes/users.py:241-288 | both keep the database valid |
| UsersApi.DeactivateThenActivate | backend/app/routes/users.py:241-288 | deactivating an active user and activating it again restores the database |
| AuthApi.Authenticate | backend/app/routes/auth.py:29 | a user is found iff its email is stored and the password verifies against its hash |
| AuthApi.RoleNameOf | backend/app/routes/auth.py:49 | the user's role name, or `user` when the role is missing |
| AuthApi.AccessClaims | backend/app/routes/auth.py:48-50 | the access payload holds exactly `sub`, `email` and `role`: the id as a decimal string, the email, and the role name (`user` for a missing role) |
| AuthApi.RefreshClaims | backend/app/routes/auth.py:51-53 | the refresh payload holds only `sub`, the id as a decimal string |
| AuthApi.Tokens | backend/app/routes/auth.py:48-60 | a bearer response expiring in 1800 seconds whose tokens are the service's signatures of the two payloads |
| AuthApi.Login | backend/app/routes/auth.py:21-60 | 401 iff authentication fails, else 400 iff the user is inactive; success holds iff the user authenticates and is active; it sets last_login to now and returns bearer tokens that expire in 1800 seconds, the access token signing the id, email and role name and the refresh token the id |
| AuthApi.LoginValid | backend/app/routes/auth.py:44-60 | login keeps the database valid |
| AuthApi.Register | backend/app/routes/auth.py:62-110 | 400 for a taken email before a taken username; otherwise one user is appended: the request's email, username and full name, the hash of its password, active, unverified, never logged in, with the `user` role, which is created if missing |
| AuthApi.RegisterValid | backend/app/routes/auth.py:71-104 | registration keeps the database valid and the new user's role is named `user` |
| AuthApi.Refresh | backend/app/routes/auth.py:112-161 | every failure is 401 "Invalid refresh token"; success holds iff the token decodes, has type `refresh`, and has a non-empty subject that parses as an active user's id; it then returns that user's tokens |
| AuthApi.LoginThenRefresh | backend/app/routes/auth.py:44-155 | the refresh token issued at login is accepted by refresh and yields tokens for the same user |
| AuthApi.ChangePassword | backend/app/routes/auth.py:172-192 | 400 iff the current password does not verify; success stores the hash of the new password and changes nothing else |
| AuthApi.ChangeThenLogin | backend/app/routes/auth.py:172-192 | after a change the new password authenticates the same user |
| MetricsApi.Insert | backend/app/routes/dashboard.py:54 | inserting into a newest-first sequence keeps it newest-first and adds exactly that metric |
| MetricsApi.NewestFirstOrder | backend/app/routes/dashboard.py:99 | `order_by(desc(recorded_at))`: a newest-first permutation of the input |
| MetricsApi.SystemHealthAsWritten | backend/app/routes/dashboard.py:47-51 | as written: warning iff the score is below 70 |
| MetricsApi.CriticalUnreachable | backend/app/routes/dashboard.py:47-51 | as written: `critical` is never returned, even for a score of 0 |
| MetricsApi.SystemHealth | backend/app/routes/dashboard.py:47-51 | corrected: critical below 50, warning from 50 to 70, healthy at 70 and above |
| MetricsApi.HealthCorrection | backend/app/routes/dashboard.py:47-51 | the correction agrees with the code iff the score is at least 50, and health never worsens as the score rises |
| MetricsApi.CountActive | backend/app/routes/dashboard.py:30-31 | at most the user count, and equal iff every user is active |
| MetricsApi.Recent | backend/app/routes/dashboard.py:33-44 | keeps a metric iff it has the type and was recorded since the cut-off |
| MetricsApi.SumBounds | backend/app/routes/dashboard.py:35-38 | a sum of values within bounds lies between count times each bound |
| MetricsApi.AverageBounds | backend/app/routes/dashboard.py:41-44 | an average of values within bounds lies within them |
| MetricsApi.GetSummary | backend/app/routes/dashboard.py:21-63 | the user count and the count of active users; revenue summed over the last 30 days; performance averaged over the same window (0 when there is none); health as the code classifies that score; the recent list is the first ten (or all, when fewer) of the newest-first order |
| MetricsApi.GetSummaryCorrected | backend/app/routes/dashboard.py:47-51 | the same summary with the corrected health: critical iff the score is below 50, healthy iff at least 70, and the code's answer from 50 up |
| MetricsApi.Filter | backend/app/routes/dashboard.py:82-92 | keeps a metric iff every present filter admits it |
| MetricsApi.ListMetrics | backend/app/routes/dashboard.py:65-114 | 422 iff page < 1 or per_page is outside 1..100; otherwise the total counts the filtered metrics and the items are the `OFFSET LIMIT` window of their newest-first order, with has_prev and has_next |
| MetricsApi.OrderedPage | backend/app/routes/dashboard.py:97-99 | paginating the newest-first order gives that order's window, newest first and drawn from the input |
| MetricsApi.PageOfOrdered | backend/app/routes/dashboard.py:98-99 | a page of a newest-first list is newest-first and drawn from it |
| MetricsApi.CreateMetric | backend/app/routes/dashboard.py:116-141 | the new metric is appended with the next id, the request's name, type, value, unit, description, source and tags, `recorded_at` defaulting to now and the caller as creator |
| MetricsApi.CreateMetricValid | backend/app/routes/dashboard.py:116-141 | creation keeps the database valid |
| MetricsApi.GetMetric | backend/app/routes/dashboard.py:143-158 | 404 iff no metric has that id, otherwise that metric |
| MetricsApi.ApplyPatch | backend/app/routes/dashboard.py:178-180 | each of the seven patchable fields (name, type, value, unit, description, source, tags) takes the supplied value or keeps its own; id, time and creator never change; an empty patch changes nothing |
| MetricsApi.UpdateMetric | backend/app/routes/dashboard.py:160-185 | 404 iff unknown; otherwise only that metric is patched |
| MetricsApi.UpdateMetricValid | backend/app/routes/dashboard.py:160-185 | update keeps the database valid; an empty patch leaves it unchanged |
| MetricsApi.DeleteMetric | backend/app/routes/dashboard.py:187-206 | 404 iff unknown; otherwise exactly that metric is removed |
| MetricsApi.DeleteMetricValid | backend/app/routes/dashboard.py:187-206 | deletion keeps the database valid and the id is gone |
| MetricsApi.DayMetrics | backend/app/routes/dashboard.py:284-333 | one day of samples: four metrics with consecutive ids, that day's time and the four types in order |
| MetricsApi.Samples | backend/app/routes/dashboard.py:281-333 | 30 days give 120 metrics with consecutive ids |
| MetricsApi.CountTypeAppend | backend/app/routes/dashboard.py:281-333 | counting a type distributes over concatenation |
| MetricsApi.SamplesPerType | backend/app/routes/dashboard.py:281-333 | each of the four seeded types occurs once per day |
| MetricsApi.SamplesAreDayBlocks | backend/app/routes/dashboard.py:281-333 | the seeded rows are, day after day, one performance, users, revenue and system metric in that order |
| MetricsApi.CountOfDayBlocks | backend/app/routes/dashboard.py:281-333 | any run of such daily blocks holds exactly one metric of each seeded type per day |
| MetricsApi.Seed | backend/app/routes/dashboard.py:266-338 | a no-op reporting "Data already exists" when any metric exists; otherwise appends the samples and reports their count |
| MetricsApi.SeedOnce | backend/app/routes/dashboard.py:274-338 | seeding an empty table adds 120 metrics, 30 of each type, keeps the database valid, and seeding again changes nothing |
| InitDb.CreateRoles | backend/init_db.py:24-42 | the admin and user roles are looked up or created; users and metrics are untouched |
| InitDb.CreateRolesValid | backend/init_db.py:24-42 | afterwards both roles exist by name and id and the database is valid |
| InitDb.EnsureAdmin | backend/init_db.py:47-66 | an existing admin email leaves the database alone. Otherwise the step fails iff the username `admin` is taken, and on success appends exactly one user: the admin email, username `admin`, full name `System Administrator`, the given hash, the admin role, active and verified |
| InitDb.EnsureAdminValid | backend/init_db.py:47-66 | the admin step keeps the database valid and leaves a user with the admin email |
| InitDb.AddSamples | backend/init_db.py:69-102 | existing users, roles and metrics stay; sample users are only appended |
| InitDb.AddSamplesRows | backend/init_db.py:84-97 | at most one row per sample is appended, and each new row is a sample whose email the database lacked, with its email, username and full name, the hash of `password123`, the user role, active, verified and never logged in |
| InitDb.AddSamplesFails | backend/init_db.py:84-102 | for samples distinct among themselves, the step fails iff some sample has a free email but a username already held: the step checks emails only, and the clash fails the commit |
| InitDb.SampleUsersFail | backend/init_db.py:69-102 | the script's own step fails iff `user1` or `user2` has a free email and a taken username |
| InitDb.AddSamplesValid | backend/init_db.py:84-100 | the sample step keeps the database valid and every sample email exists afterwards |
| InitDb.AddSamplesPresent | backend/init_db.py:84-86 | samples whose emails all exist insert nothing |
| InitDb.InitDatabase | backend/init_db.py:12-110 | metrics are untouched; an existing admin is left as it was |
| InitDb.InitValid | backend/init_db.py:12-110 | a run keeps the database valid and leaves both roles; a completed run leaves the admin and the sample emails |
| InitDb.AdminUsernameClash | backend/init_db.py:55-66 | a missing admin email with a taken `admin` username fails after the roles are committed |
| InitDb.InitEmpty | backend/init_db.py:12-110 | on an empty database the run succeeds with two roles and three users, the first having the default admin email, username `admin`, the admin role, and being active and verified; the second and third are `user1` and `user2` with their names, the sample password's hash and the `user` role, active and verified |
| InitDb.InitIdempotent | backend/init_db.py:24-100 | a second run after a completed one changes nothing |
| Schemas.ValidatePassword | backend/app/schemas/user.py:34-38 | accepted iff at least 6 characters, returned unchanged |
| Schemas.UserCreateDefaults | backend/app/schemas/user.py:20-32 | a creation request that names only email, username and password keeps email and username, has no full name, is active and names no role (the password is validated by `ValidatePassword` and not kept in this record) |
| Schemas.ValidateUsername | backend/app/schemas/user.py:40-47 | under 3 characters is "too short"; otherwise it must be alphanumeric once `_` and `-` are removed; returned unchanged |
| Schemas.ValidateUsernameShape | backend/app/schemas/user.py:40-47 | accepted iff at least 3 characters drawn from letters, digits, `_` and `-` with at least one letter or digit |
| Schemas.SeparatorsOnlyRejected | backend/app/schemas/user.py:44-46 | a name made only of `_` and `-` is refused whatever its length |
| Schemas.ValidateOptionalUsername | backend/app/schemas/user.py:58-66 | absent passes; present follows the create rule |
| Schemas.ValidateRegisterUsername | backend/app/schemas/auth.py:27-33 | accepted iff at least 3 characters, all alphanumeric |
| Schemas.RegisterUsernameIsCreateUsername | backend/app/schemas/auth.py:27-33 | every registration username is accepted by user creation |
| Schemas.CreateUsernameNotRegisterUsername | backend/app/schemas/auth.py:27-33 | but not the converse: `ab_c` is accepted by creation only |
| Schemas.ValidatePasswordChange | backend/app/schemas/auth.py:52-61 | accepted iff the new password has at least 6 characters; the current one is unchecked |
| Schemas.AllowedTypesAreEnum | backend/app/schemas/metrics.py:26 | the validator's list names exactly the five `MetricType` values |
| Schemas.ValidateMetricType | backend/app/schemas/metrics.py:24-29 | accepted iff in the fixed list, case-sensitively, returned unchanged |
| Schemas.MetricTypeCaseSensitive | backend/app/schemas/metrics.py:27-29 | `performance` is accepted and `Performance` refused |
| Schemas.ValidateOptionalMetricType | backend/app/schemas/metrics.py:41-47 | absent passes; present follows the create rule |
| Schemas.ValidateLowered | backend/app/schemas/logs.py:26-38 | accepted iff the lower-cased value is allowed; the result is that lower-cased value |
| Schemas.ValidateLevel | backend/app/schemas/logs.py:26-31 | accepted iff its lower-case form is a log level, which it returns |
| Schemas.ValidateCategory | backend/app/schemas/logs.py:33-38 | accepted iff its lower-case form is a category, which it returns |
| Schemas.LoweredValidatorLaws | backend/app/schemas/logs.py:29-31 | acceptance ignores case and re-validating an output returns it unchanged |
| Schemas.LevelAndCategoryLaws | backend/app/schemas/logs.py:26-38 | the same two laws for the level and the category validators |
| Text.ParseNatToString | backend/app/routes/auth.py:128-135 | printing an id and parsing it back (`str` then `int` of the token subject) gives the id |
| Text.NatToString | backend/app/routes/auth.py:49 | `str` of an id is a non-empty string of decimal digits |
| Text.ParseNat | backend/app/routes/auth.py:135 | `int` of the token subject gives a value iff the subject is a non-empty string of decimal digits |

## Left out

- HTTP, RxJS and timing: observables, subjects, `debounceTime`/`distinctUntilChanged`, `takeUntil` teardown and `setTimeout`. Each request's outcome is an explicit input.
- `alert` and `confirm` dialogs are a boolean input.
- The DOM is out: templates, Chart.js drawing, Blob downloads and CSS.
- Locale and date formatting is out: `toLocaleString`, `toLocaleDateString`, `isoformat`.
- The thin service wrappers (`user.service.ts`, `report.service.ts`, `dashboard.service.ts`) only forward requests, so they are out. So are the client/server field-name mismatches they carry.
- `backend/app/routes/reports.py` is not part of this model. Its SQL aggregation, exports and date-stamped file names depend on the database engine and the clock.
- The analytics request of `loadDashboardData` (dashboard app.component.ts:82-93) only feeds the charts, so it is out.
- `get_performance_chart_data` and `get_users_chart_data` (dashboard.py:208-264) are out, because they group by date in SQL.
- The `/me` and `/logout` endpoints (auth.py:163-170, 194-199) are out. One reads the current user; the other only answers a fixed message.
- `users.py` `get_roles` (230-239) is out: it returns the role table as stored, so there is nothing to state beyond the table itself.
- Authentication and token checking are out: the `get_current_user` and `get_current_active_user` dependencies. Route functions take the caller's id directly.
- JWT and hashing are opaque parameters (`AuthApi.Crypto`).
- AuthApi.LoginThenRefresh assumes that decoding an issued refresh token returns its claims with `type` set to `refresh`.
- AuthApi.ChangeThenLogin assumes that verifying a password against its own hash succeeds.
- AuthApi.Authenticate assumes that the helper service's `authenticate_user` looks the user up by email and verifies the password. That service is not part of this model.
- `int(sub)` in refresh is `Text.ParseNat`. Python also accepts surrounding whitespace, a sign and `_` separators. Such tokens would never be issued by login.
- Case folding and `isalnum` are modelled over ASCII, whereas Python and JavaScript use Unicode rules.
- The white space replaced in the download file name is ASCII white space only (tab, line feed, vertical tab, form feed, carriage return, space). JavaScript `\s` also matches U+00A0, U+FEFF, U+2028 and the other Unicode spaces.
- ShellUsers.RoleLabel: a role named after an `Object.prototype` member (`constructor`, `toString`, ...) makes `labels[role]` an inherited function, which the page would show instead of the role. The model shows such a role unchanged.
- Session.Rehydrate: a stored user of `"null"` parses to `null` in JavaScript and restores a token with a null user. `Codec.parse` returns `None` for it, so the model reports a corrupt record.
- DashboardApp.UptimeParts: `Infinity` is out, since `real` has no infinity; a finite count, fractions and negatives included, is modelled. `NaN` falls with the missing values.
- DashboardApp.JsRemBounds: proved only for the divisors 86400 and 3600, the two the component uses; `JsRem` itself is defined for any positive divisor.
- Store.Valid: `metrics.created_by`'s foreign key to `users.id` (models/metrics.py:41) is not part of the invariant. `delete_user` deletes a user without touching the metrics that user created, and SQLite does not enforce foreign keys unless asked to, so a stored `createdBy` may name a deleted user.
- Store.Valid: the id counters only grow, so a deleted id is never handed out again. SQLite without `AUTOINCREMENT` gives a new row max(id)+1, so deleting the newest user lets the next insert reuse its id. The model does not promise that reuse.
- Floating point is modelled as `real`. `round(..., 2)` on the summary's performance score is not modelled, and neither is `random.uniform` in seeding: each sample value comes from a `draw` parameter.
- The seeded revenue unit keeps the mis-encoded euro sign exactly as the source spells it.
- `formatFileSize` and `formatTime` (report app) are out, as floating-point and locale formatting.
- `getSystemHealthReport` and the `deleteReport` stub are out. The first only builds a canned request; the second only shows an alert.
- The `clearSearch` and `refresh` wrappers are out, because they only call modelled operations.
- `apps/shell/src/app/features/dashboard/dashboard.component.ts` and the shell report feature are out. They only set hard-coded mock numbers.
- `init_db.py` table creation and its console output are out. An integrity error is `InitDb.Outcome.Failed`, carrying the rolled-back database of the last commit.
- Row order: `get_users` has no `ORDER BY`, so the model keeps insertion (id) order. Ties in `recorded_at` keep insertion order.
- Explicit `null` fields in an update body (`exclude_unset` keeps them) are out. An update field is either absent or a value.
- UsersApi.UpdateUserValid requires a patched email and username to be non-empty. `EmailStr` and the username validator guarantee this before the route runs.
- Session.IsAuthenticated is true only for a non-empty token, as the source's `!!token` gives. A null-check alone would also accept the empty token.

## Findings

| source | as written | input that shows it | evidently intended | confidence | as-written member | corrected member |
|---|---|---|---|---|---|---|
| backend/app/routes/dashboard.py:47-51 | `if score < 70: warning` is tested before `elif score < 50: critical`, so the second branch is never reached | performance score 0.0 is reported as `warning` | a low score (below 50) is `critical` | not executed | MetricsApi.CriticalUnreachable | MetricsApi.GetSummaryCorrected |
| apps/shell/src/app/features/utenti/utenti.component.ts:436 | a new user's id is `users.length + 1` | add two users (ids 1, 2), delete id 1, add one more: it gets id 2 again | a fresh id, above every id in use | not executed | ShellUsers.AddAfterDeleteReusesId | ShellUsers.AddUserWithFreshId |
| backend/app/routes/users.py:184-190 | `if user_data.role_id:` skips the role check for role id 0, which is then written | `PUT /users/1` with `role_id: 0` on a database without role 0 succeeds and leaves a user whose role does not exist (SQLite does not enforce the foreign key) | every supplied role id is checked | not executed | UsersApi.UpdateRoleZeroBreaksStore | UsersApi.UpdateUserValid |
