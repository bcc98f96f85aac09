/** The client-side session kept by the shared authentication service
    (libs/services auth.service.ts): durable browser storage, the published
    token and the published current user, and the transitions login,
    refresh, logout and start-up rehydration.

    Browser storage is a map from keys to strings. The two published
    "subjects" are plain fields. Every HTTP exchange is an input: the reply
    the server gave, or the error it failed with. Each transition returns the
    requests it issued, so "no request is sent" is a statement about a value. */
module Session {
  import opened Wrappers

  const AccessTokenKey: string := "access_token"
  const RefreshTokenKey: string := "refresh_token"
  const CurrentUserKey: string := "current_user"

  /** The three keys the service owns in browser storage. */
  const SessionKeys: set<string> := {AccessTokenKey, RefreshTokenKey, CurrentUserKey}

  const ContentTypeJson: string := "application/json"

  type Storage = map<string, string>

  /** The user profile served by `/me`. */
  datatype Profile = Profile(id: int, username: string, email: string, fullName: string,
                             isActive: bool, roleName: string)

  /** `JSON.stringify` and `JSON.parse` for profiles; `parse` answers `None`
      where `JSON.parse` would throw. */
  datatype Codec = Codec(stringify: Profile -> string, parse: string -> Option<Profile>)

  /** The service's state: storage plus the two published subjects. */
  datatype Client = Client(storage: Storage, token: Option<string>, user: Option<Profile>)

  datatype Headers = Headers(authorization: string, contentType: string)

  datatype Request =
    | PostLogin(email: string, password: string)
    | GetMe(headers: Headers)
    | PostRefresh(refreshToken: string)

  datatype HttpError = HttpError(status: int, detail: Option<string>)

  /** What the server answered to one request. */
  datatype Reply<T> = Replied(body: T) | Failed(error: HttpError)

  /** The token pair of a login or refresh response. */
  datatype TokenPair = TokenPair(accessToken: string, refreshToken: string)

  datatype ClientError = Http(error: HttpError) | NoRefreshToken

  datatype StartupError = CorruptUserRecord

  /** The outcome of one login or refresh: the new state, the requests sent in
      order, and what the caller's subscription receives. */
  datatype Step = Step(client: Client, requests: seq<Request>, result: Result<Profile, ClientError>)

  /** JavaScript truthiness of a stored string: present and non-empty. */
  predicate Truthy(v: Option<string>) {
    v.Some? && v.value != ""
  }

  function Lookup(s: Storage, key: string): Option<string> {
    if key in s then Some(s[key]) else None
  }

  /** `a` and `b` agree on every key outside `keys`. */
  ghost predicate SameOutside(a: Storage, b: Storage, keys: set<string>) {
    forall k :: k !in keys ==> Lookup(a, k) == Lookup(b, k)
  }

  /** No session key in storage and both subjects null. */
  predicate LoggedOut(c: Client) {
    && c.token.None?
    && c.user.None?
    && AccessTokenKey !in c.storage
    && RefreshTokenKey !in c.storage
    && CurrentUserKey !in c.storage
  }

  /** Start-up: both subjects are set exactly when an access token and a
      stored user are both present and non-empty; a stored user that does not
      parse makes construction fail, as `JSON.parse` throws. */
  function Rehydrate(storage: Storage, codec: Codec): (r: Result<Client, StartupError>)
    ensures r.Ok? ==> r.value.storage == storage
    ensures r.Ok? ==> (r.value.token.Some? <==> r.value.user.Some?)
    ensures r.Ok? && r.value.token.Some? ==>
              Lookup(storage, AccessTokenKey) == r.value.token && r.value.token.value != ""
              && Truthy(Lookup(storage, CurrentUserKey))
              && codec.parse(storage[CurrentUserKey]) == r.value.user
    ensures !(Truthy(Lookup(storage, AccessTokenKey)) && Truthy(Lookup(storage, CurrentUserKey))) ==>
              r == Ok(Client(storage, None, None))
    ensures r.Err? <==>
              Truthy(Lookup(storage, AccessTokenKey)) && Truthy(Lookup(storage, CurrentUserKey))
              && codec.parse(storage[CurrentUserKey]).None?
  {
    var token := Lookup(storage, AccessTokenKey);
    var user := Lookup(storage, CurrentUserKey);
    if Truthy(token) && Truthy(user) then
      match codec.parse(user.value)
      case None => Err(CorruptUserRecord)
      case Some(u) => Ok(Client(storage, token, Some(u)))
    else
      Ok(Client(storage, None, None))
  }

  /** Removes the three session keys and nulls both subjects. */
  function Logout(c: Client): (r: Client)
    ensures LoggedOut(r)
    ensures SameOutside(r.storage, c.storage, SessionKeys)
    ensures r.storage.Keys == c.storage.Keys - SessionKeys
  {
    Client(c.storage - SessionKeys, None, None)
  }

  lemma LogoutIdempotent(c: Client)
    ensures Logout(Logout(c)) == Logout(c)
  {
    assert Logout(Logout(c)).storage == Logout(c).storage;
  }

  /** Authenticated means a truthy token (`!!token`): an empty token is not. */
  function IsAuthenticated(c: Client): (b: bool)
    ensures b <==> c.token.Some? && c.token.value != ""
  {
    Truthy(c.token)
  }

  /** The headers attached to authenticated requests; a null token is
      interpolated as the text `null`. */
  function AuthHeaders(token: Option<string>): (h: Headers)
    ensures h.contentType == ContentTypeJson
    ensures token.Some? ==> h.authorization == "Bearer " + token.value
    ensures token.None? ==> h.authorization == "Bearer null"
  {
    Headers("Bearer " + token.GetOr("null"), ContentTypeJson)
  }

  /** The `/me` leg shared by login and refresh: on success the user is
      stored and published, on failure the session is cleared. */
  function FetchMe(c: Client, prior: seq<Request>, me: Reply<Profile>, codec: Codec): (r: Step)
    ensures r.requests == prior + [GetMe(AuthHeaders(c.token))]
    ensures me.Failed? ==> r.client == Logout(c) && r.result == Err(Http(me.error))
    ensures me.Replied? ==>
              && r.result == Ok(me.body)
              && r.client.storage == c.storage[CurrentUserKey := codec.stringify(me.body)]
              && r.client.token == c.token
              && r.client.user == Some(me.body)
  {
    var sent := prior + [GetMe(AuthHeaders(c.token))];
    match me
    case Failed(e) => Step(Logout(c), sent, Err(Http(e)))
    case Replied(u) =>
      Step(Client(c.storage[CurrentUserKey := codec.stringify(u)], c.token, Some(u)), sent, Ok(u))
  }

  /** Login: post the credentials, store and publish both tokens, fetch
      `/me`, then store and publish the user. Any failure ends logged out. */
  function Login(c: Client, email: string, password: string,
                 reply: Reply<TokenPair>, me: Reply<Profile>, codec: Codec): (r: Step)
    ensures |r.requests| >= 1 && r.requests[0] == PostLogin(email, password)
    ensures reply.Failed? ==> r.requests == [PostLogin(email, password)]
    ensures r.result.Ok? <==> reply.Replied? && me.Replied?
    ensures r.result.Err? ==> LoggedOut(r.client)
    ensures SameOutside(r.client.storage, c.storage, SessionKeys)
    ensures r.result.Ok? ==>
              var t := reply.body;
              && r.requests == [PostLogin(email, password), GetMe(AuthHeaders(Some(t.accessToken)))]
              && r.result.value == me.body
              && Lookup(r.client.storage, AccessTokenKey) == Some(t.accessToken)
              && Lookup(r.client.storage, RefreshTokenKey) == Some(t.refreshToken)
              && Lookup(r.client.storage, CurrentUserKey) == Some(codec.stringify(me.body))
              && r.client.token == Some(t.accessToken)
              && r.client.user == Some(me.body)
  {
    var sent := [PostLogin(email, password)];
    match reply
    case Failed(e) => Step(Logout(c), sent, Err(Http(e)))
    case Replied(t) =>
      var stored := c.storage[AccessTokenKey := t.accessToken][RefreshTokenKey := t.refreshToken];
      FetchMe(Client(stored, Some(t.accessToken), c.user), sent, me, codec)
  }

  /** Refresh: with no truthy stored refresh token, log out and fail without
      any request; otherwise post it, overwrite only the access token, fetch
      `/me` and store the user. The refresh token the server returns is not
      stored. Any failure ends logged out. */
  function Refresh(c: Client, reply: Reply<TokenPair>, me: Reply<Profile>, codec: Codec): (r: Step)
    ensures !Truthy(Lookup(c.storage, RefreshTokenKey)) ==>
              r == Step(Logout(c), [], Err(NoRefreshToken))
    ensures r.result.Ok? <==>
              Truthy(Lookup(c.storage, RefreshTokenKey)) && reply.Replied? && me.Replied?
    ensures r.result.Err? ==> LoggedOut(r.client)
    ensures SameOutside(r.client.storage, c.storage, SessionKeys)
    ensures r.result.Ok? ==>
              var t := reply.body;
              && r.requests == [PostRefresh(c.storage[RefreshTokenKey]),
                                GetMe(AuthHeaders(Some(t.accessToken)))]
              && Lookup(r.client.storage, RefreshTokenKey) == Lookup(c.storage, RefreshTokenKey)
              && Lookup(r.client.storage, AccessTokenKey) == Some(t.accessToken)
              && Lookup(r.client.storage, CurrentUserKey) == Some(codec.stringify(me.body))
              && r.client.token == Some(t.accessToken)
              && r.client.user == Some(me.body)
  {
    var stored := Lookup(c.storage, RefreshTokenKey);
    if !Truthy(stored) then
      Step(Logout(c), [], Err(NoRefreshToken))
    else
      var sent := [PostRefresh(stored.value)];
      match reply
      case Failed(e) => Step(Logout(c), sent, Err(Http(e)))
      case Replied(t) =>
        FetchMe(Client(c.storage[AccessTokenKey := t.accessToken], Some(t.accessToken), c.user),
                sent, me, codec)
  }

  /** After a logout, a restart finds no session. */
  lemma RestartAfterLogout(c: Client, codec: Codec)
    ensures Rehydrate(Logout(c).storage, codec) == Ok(Client(Logout(c).storage, None, None))
  {
  }

  /** A successful login followed by a restart with storage intact comes back
      with the same token and user and without any request, provided the
      token is non-empty and the stored user reads back as itself. */
  lemma RestartAfterLogin(c: Client, email: string, password: string,
                          reply: Reply<TokenPair>, me: Reply<Profile>, codec: Codec)
    requires Login(c, email, password, reply, me, codec).result.Ok?
    requires reply.body.accessToken != ""
    requires codec.stringify(me.body) != ""
    requires codec.parse(codec.stringify(me.body)) == Some(me.body)
    ensures var after := Login(c, email, password, reply, me, codec).client;
            Rehydrate(after.storage, codec) == Ok(after)
  {
  }
}
