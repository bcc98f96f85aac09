/** The shell application: its route table (app.module.ts), the
    authentication guard (guards/auth.guard.ts) and the root component's
    session bookkeeping (app.component.ts).

    A URL is its list of path segments: `/` is `[]`, `/dashboard` is
    `["dashboard"]`. Router navigation is a value the operations return. */
module Shell {
  import opened Wrappers
  import Session

  type Url = seq<string>

  const RootUrl: Url := []
  const LoginUrl: Url := ["login"]
  const DashboardUrl: Url := ["dashboard"]

  // ---------------------------------------------------------------------
  // Authentication guard
  // ---------------------------------------------------------------------

  datatype GuardDecision = Allow | Deny(redirect: Url)

  /** `canActivate`: allow when a current user is published, otherwise deny
      and navigate to `/`. The token plays no part. */
  function CanActivate(c: Session.Client): (d: GuardDecision)
    ensures d.Allow? <==> c.user.Some?
    ensures d.Deny? ==> d.redirect == RootUrl
  {
    if c.user.Some? then Allow else Deny(RootUrl)
  }

  /** Two clients with the same current user get the same decision, whatever
      their tokens and storage; in particular a client mid-login (token
      published, user not yet) is denied. */
  lemma GuardDependsOnlyOnUser(a: Session.Client, b: Session.Client)
    requires a.user == b.user
    ensures CanActivate(a) == CanActivate(b)
    ensures a.token.Some? && a.user.None? ==> CanActivate(a) == Deny(RootUrl)
  {
  }

  // ---------------------------------------------------------------------
  // Route table
  // ---------------------------------------------------------------------

  /** What a matched route renders: the login view or a lazily loaded
      feature module. */
  datatype Target = LoginView | FeatureModule(name: string)

  datatype Action =
    | RedirectTo(to: Url)
    | Mount(target: Target, guarded: bool)

  /** `Segment(p)` matches the one-segment URL `[p]` (the empty path with a
      full-path match matches only `/`); `Wildcard` is `**`. Each feature
      module's own routes hold only an empty child path, so a lazy route
      matches its segment alone. */
  datatype Pattern = Root | Segment(path: string) | Wildcard

  datatype Route = Route(pattern: Pattern, action: Action)

  const Routes: seq<Route> := [
    Route(Root, RedirectTo(LoginUrl)),
    Route(Segment("login"), Mount(LoginView, false)),
    Route(Segment("dashboard"), Mount(FeatureModule("DashboardModule"), true)),
    Route(Segment("utenti"), Mount(FeatureModule("UtentiModule"), true)),
    Route(Segment("report"), Mount(FeatureModule("ReportModule"), true)),
    Route(Wildcard, RedirectTo(LoginUrl))
  ]

  predicate Matches(p: Pattern, url: Url) {
    match p
    case Root => url == []
    case Segment(s) => url == [s]
    case Wildcard => true
  }

  /** The first route whose pattern matches. */
  function FirstMatch(routes: seq<Route>, url: Url): (r: Option<Route>)
    ensures r.Some? ==> r.value in routes && Matches(r.value.pattern, url)
    ensures r.None? <==> forall i :: 0 <= i < |routes| ==> !Matches(routes[i].pattern, url)
    ensures r.Some? ==>
              exists i :: 0 <= i < |routes| && routes[i] == r.value
                          && forall j :: 0 <= j < i ==> !Matches(routes[j].pattern, url)
  {
    if |routes| == 0 then None
    else if Matches(routes[0].pattern, url) then Some(routes[0])
    else
      var rest := FirstMatch(routes[1..], url);
      if rest.Some? then
        var i :| 0 <= i < |routes[1..]| && routes[1..][i] == rest.value
                 && forall j :: 0 <= j < i ==> !Matches(routes[1..][j].pattern, url);
        assert routes[i + 1] == rest.value;
        assert forall j :: 0 <= j < i + 1 ==> !Matches(routes[j].pattern, url) by {
          forall j | 0 < j < i + 1 ensures !Matches(routes[j].pattern, url) {
            assert routes[j] == routes[1..][j - 1];
          }
        }
        rest
      else rest
  }

  /** The action the table assigns to a URL (`/login` when nothing matches,
      which the final wildcard rules out). */
  function Resolve(url: Url): (r: Action)
    ensures FirstMatch(Routes, url).Some? && r == FirstMatch(Routes, url).value.action
  {
    assert Matches(Routes[|Routes| - 1].pattern, url);
    match FirstMatch(Routes, url)
    case Some(r) => r.action
    case None => RedirectTo(LoginUrl)
  }

  /** The table, read off: `/` redirects to `/login`, `/login` is the
      unguarded login view, the three feature URLs are guarded lazy modules,
      and every other URL redirects to `/login`. */
  lemma {:induction false} ResolveTable(url: Url)
    ensures url == RootUrl ==> Resolve(url) == RedirectTo(LoginUrl)
    ensures url == LoginUrl ==> Resolve(url) == Mount(LoginView, false)
    ensures url == ["dashboard"] ==> Resolve(url) == Mount(FeatureModule("DashboardModule"), true)
    ensures url == ["utenti"] ==> Resolve(url) == Mount(FeatureModule("UtentiModule"), true)
    ensures url == ["report"] ==> Resolve(url) == Mount(FeatureModule("ReportModule"), true)
    ensures url !in {RootUrl, LoginUrl, ["dashboard"], ["utenti"], ["report"]} ==>
              Resolve(url) == RedirectTo(LoginUrl)
  {
    // Walk the table one route at a time.
    assert FirstMatch(Routes, url) ==
      (if Matches(Root, url) then Some(Routes[0]) else FirstMatch(Routes[1..], url));
    assert FirstMatch(Routes[1..], url) ==
      (if url == LoginUrl then Some(Routes[1]) else FirstMatch(Routes[2..], url));
    assert FirstMatch(Routes[2..], url) ==
      (if url == ["dashboard"] then Some(Routes[2]) else FirstMatch(Routes[3..], url));
    assert FirstMatch(Routes[3..], url) ==
      (if url == ["utenti"] then Some(Routes[3]) else FirstMatch(Routes[4..], url));
    assert FirstMatch(Routes[4..], url) ==
      (if url == ["report"] then Some(Routes[4]) else FirstMatch(Routes[5..], url));
    assert FirstMatch(Routes[5..], url) == Some(Routes[5]);
  }

  /** Only the three feature routes carry the guard, and every redirect of
      the table leads to the unguarded login view. */
  lemma GuardedRoutes(url: Url)
    ensures Resolve(url).Mount? && Resolve(url).guarded <==>
              url in {["dashboard"], ["utenti"], ["report"]}
    ensures Resolve(url).RedirectTo? ==> Resolve(Resolve(url).to) == Mount(LoginView, false)
  {
    ResolveTable(url);
    ResolveTable(LoginUrl);
  }

  datatype Outcome = Activated(target: Target, url: Url) | Unresolved

  /** One navigation: follow redirects, consult the guard on guarded routes,
      and follow a denial's navigation, at most `hops` times. */
  function Navigate(url: Url, c: Session.Client, hops: nat): (r: Outcome)
    ensures r.Activated? ==> Resolve(r.url).Mount? && Resolve(r.url).target == r.target
    ensures r.Activated? && Resolve(r.url).Mount? && Resolve(r.url).guarded ==> CanActivate(c).Allow?
    ensures Resolve(url).Mount? && !Resolve(url).guarded ==> r == Activated(Resolve(url).target, url)
    decreases hops
  {
    match Resolve(url)
    case RedirectTo(to) =>
      if hops == 0 then Unresolved else Navigate(to, c, hops - 1)
    case Mount(target, guarded) =>
      if guarded && CanActivate(c).Deny? then
        if hops == 0 then Unresolved else Navigate(CanActivate(c).redirect, c, hops - 1)
      else Activated(target, url)
  }

  /** `/login` activates the login view at once, and `/` reaches it in one
      hop, whoever is signed in. */
  lemma LoginChain(c: Session.Client)
    ensures Navigate(LoginUrl, c, 0) == Activated(LoginView, LoginUrl)
    ensures Navigate(LoginUrl, c, 1) == Activated(LoginView, LoginUrl)
    ensures Navigate(RootUrl, c, 1) == Activated(LoginView, LoginUrl)
  {
    ResolveTable(RootUrl);
    ResolveTable(LoginUrl);
  }

  /** Hops needed by the longest chain: denial to `/`, then `/` to `/login`. */
  const MaxHops: nat := 2

  /** Every navigation settles within two hops. With no current user it
      always ends at the unguarded login view, so a denied navigation never
      loops; with a user every feature URL activates its module. */
  lemma {:induction false} NavigationSettles(url: Url, c: Session.Client)
    ensures Navigate(url, c, MaxHops).Activated?
    ensures c.user.None? ==> Navigate(url, c, MaxHops) == Activated(LoginView, LoginUrl)
    ensures c.user.Some? && Resolve(url).Mount? ==>
              Navigate(url, c, MaxHops) == Activated(Resolve(url).target, url)
  {
    ResolveTable(url);
    LoginChain(c);
    match Resolve(url)
    case RedirectTo(to) =>
      assert to == LoginUrl;
      assert Navigate(url, c, MaxHops) == Navigate(LoginUrl, c, 1);
    case Mount(target, guarded) =>
      if guarded && c.user.None? {
        assert Navigate(url, c, MaxHops) == Navigate(RootUrl, c, 1);
      } else {
        assert Navigate(url, c, MaxHops) == Activated(target, url);
        assert c.user.None? ==> url == LoginUrl;
      }
  }

  // ---------------------------------------------------------------------
  // Root component
  // ---------------------------------------------------------------------

  const LoginFailedMessage: string := "Login failed. Please try again."
  const DefaultLoadingMessage: string := "Loading..."

  datatype View = View(
    isAuthenticated: bool,
    currentUser: Option<Session.Profile>,
    isLoggingIn: bool,
    loginError: string,
    isLoading: bool,
    loadingMessage: string)

  const InitialView: View := View(false, None, false, "", false, "")

  /** The result of a component operation: the new view and service state,
      the requests sent, and the router navigations made, in order. */
  datatype Effect = Effect(view: View, client: Session.Client,
                           requests: seq<Session.Request>, navigations: seq<Url>)

  /** The `currentUser$` subscription: mirror the user, and send an
      authenticated visitor of exactly `/` on to `/dashboard`. */
  function OnUserEmission(v: View, user: Option<Session.Profile>, routerUrl: string): (r: (View, seq<Url>))
    ensures r.0.currentUser == user
    ensures r.0.isAuthenticated <==> user.Some?
    ensures r.0.isLoggingIn == v.isLoggingIn && r.0.loginError == v.loginError
    ensures r.0.isLoading == v.isLoading && r.0.loadingMessage == v.loadingMessage
    ensures r.1 == (if user.Some? && routerUrl == "/" then [DashboardUrl] else [])
  {
    var v' := v.(currentUser := user, isAuthenticated := user.Some?);
    if v'.isAuthenticated && routerUrl == "/" then (v', [DashboardUrl]) else (v', [])
  }

  /** `error.error?.detail || 'Login failed. Please try again.'`. */
  function LoginErrorText(e: Session.ClientError): (s: string)
    ensures s != ""
    ensures e.Http? && e.error.detail.Some? && e.error.detail.value != "" ==> s == e.error.detail.value
    ensures !(e.Http? && e.error.detail.Some? && e.error.detail.value != "") ==> s == LoginFailedMessage
  {
    if e.Http? && e.error.detail.Some? && e.error.detail.value != "" then e.error.detail.value
    else LoginFailedMessage
  }

  /** What `onLogin` sets before the request is sent. */
  function BeginLogin(v: View): (r: View)
    ensures r.isLoggingIn && r.loginError == ""
    ensures r.currentUser == v.currentUser && r.isAuthenticated == v.isAuthenticated
    ensures r.isLoading == v.isLoading && r.loadingMessage == v.loadingMessage
  {
    v.(isLoggingIn := true, loginError := "")
  }

  /** `onLogin`: nothing happens for an invalid form. Otherwise the service
      logs in; its single user emission (the user, or `null` from the logout
      on failure) reaches the subscription first, then the outcome handler
      clears `isLoggingIn` and either navigates to `/dashboard` or shows the
      error. */
  function OnLogin(v: View, formValid: bool, c: Session.Client, email: string, password: string,
                   reply: Session.Reply<Session.TokenPair>, me: Session.Reply<Session.Profile>,
                   codec: Session.Codec, routerUrl: string): (r: Effect)
    ensures !formValid ==> r == Effect(v, c, [], [])
    ensures formValid ==> !r.view.isLoggingIn
    ensures formValid ==> r.client == Session.Login(c, email, password, reply, me, codec).client
    ensures formValid ==> r.requests == Session.Login(c, email, password, reply, me, codec).requests
    ensures formValid ==> (r.view.isAuthenticated <==> reply.Replied? && me.Replied?)
    ensures formValid && reply.Replied? && me.Replied? ==>
              && r.view.loginError == ""
              && r.view.currentUser == Some(me.body)
              && |r.navigations| > 0 && r.navigations[|r.navigations| - 1] == DashboardUrl
    ensures formValid && !(reply.Replied? && me.Replied?) ==>
              && r.navigations == []
              && r.view.currentUser.None?
              && r.view.loginError ==
                   LoginErrorText(Session.Http(if reply.Failed? then reply.error else me.error))
  {
    if !formValid then Effect(v, c, [], [])
    else
      var step := Session.Login(c, email, password, reply, me, codec);
      var (seen, redirects) := OnUserEmission(BeginLogin(v), step.client.user, routerUrl);
      match step.result
      case Ok(_) =>
        Effect(seen.(isLoggingIn := false), step.client, step.requests, redirects + [DashboardUrl])
      case Err(e) =>
        Effect(seen.(isLoggingIn := false, loginError := LoginErrorText(e)),
               step.client, step.requests, redirects)
  }

  /** `logout`: the service clears the session, the subscription sees
      `null`, and the router goes to `/`. */
  function Logout(v: View, c: Session.Client): (r: Effect)
    ensures Session.LoggedOut(r.client)
    ensures !r.view.isAuthenticated && r.view.currentUser.None?
    ensures r.requests == [] && r.navigations == [RootUrl]
  {
    var (seen, _) := OnUserEmission(v, None, "");
    Effect(seen, Session.Logout(c), [], [RootUrl])
  }

  /** `showLoading(message = 'Loading...')`. */
  function ShowLoading(v: View, message: Option<string>): (r: View)
    ensures r.isLoading
    ensures r.loadingMessage == (if message.Some? then message.value else DefaultLoadingMessage)
    ensures r.isAuthenticated == v.isAuthenticated && r.currentUser == v.currentUser
    ensures r.isLoggingIn == v.isLoggingIn && r.loginError == v.loginError
  {
    v.(isLoading := true, loadingMessage := message.GetOr(DefaultLoadingMessage))
  }

  /** `hideLoading` resets the loading indicator and touches nothing else. */
  function HideLoading(v: View): (r: View)
    ensures !r.isLoading && r.loadingMessage == ""
    ensures r.isAuthenticated == v.isAuthenticated && r.currentUser == v.currentUser
    ensures r.isLoggingIn == v.isLoggingIn && r.loginError == v.loginError
  {
    v.(isLoading := false, loadingMessage := "")
  }

  /** Hiding after showing restores the idle indicator, whatever the message. */
  lemma HideUndoesShow(v: View, m: Option<string>)
    requires !v.isLoading && v.loadingMessage == ""
    ensures HideLoading(ShowLoading(v, m)) == v
  {
  }
}
