/** blendlabs/go-web's `AuthManager` and its session middleware: signing a
    user in and out, reading the session id off a request, verifying it
    against the session cache and a fetch handler, and the `SessionAware`
    and `SessionRequired` wrappers around an action.  The database
    transaction a handler is given is left out; the handlers are functions
    of the session or the id alone. */
module AuthManager {
  import opened Wrappers
  import opened GoStrings
  import opened GoTime
  import opened WebSession

  /** `DefaultSessionParamName`. */
  const DefaultSessionParamName: String := "__auth_token__"

  /** `DefaultSessionCookiePath`. */
  const CookiePath: String := "/"

  /** The request context: the request, the session set on it, and the
      cookies written to the response so far, in order. */
  datatype Ctx = Ctx(request: Request, session: Option<Session>, cookies: seq<CookieWrite>)

  /** `AuthManager`; a handler that was never set is `None`. */
  datatype Manager = Manager(
    cache: Cache<Session>,
    persist: Option<Session -> Option<Error>>,
    fetch: Option<String -> Fetch>,
    remove: Option<String -> Option<Error>>,
    validate: Option<Session -> Option<Error>>,
    loginRedirect: Option<Url -> Option<Url>>,
    paramName: String,
    cookieIsSessionBound: bool,
    cookieIsSecure: Option<bool>,
    cookieTimeout: Option<Ctx -> Option<Time>>)

  /** `NewAuthManager`: an empty cache, session-bound cookies, the default
      parameter name, and no handlers. */
  function NewAuthManager(): (m: Manager)
    ensures m.cache == map[] && m.cookieIsSessionBound && m.cookieTimeout.None?
    ensures m.paramName == DefaultSessionParamName
    ensures m.persist.None? && m.fetch.None? && m.remove.None? && m.validate.None? && m.loginRedirect.None?
    ensures m.cookieIsSecure.None?
  {
    Manager(map[], None, None, None, None, None, DefaultSessionParamName, true, None, None)
  }

  /** `SetCookiesAsSessionBound`: cookies end with the browser session and
      the timeout provider is dropped. */
  function SetCookiesAsSessionBound(m: Manager): (r: Manager)
    ensures r.cookieIsSessionBound && r.cookieTimeout.None?
    ensures r == m.(cookieIsSessionBound := r.cookieIsSessionBound, cookieTimeout := r.cookieTimeout)
  {
    m.(cookieIsSessionBound := true, cookieTimeout := None)
  }

  /** `SetCookieTimeout`: cookies expire when the provider says. */
  function SetCookieTimeout(m: Manager, provider: Ctx -> Option<Time>): (r: Manager)
    ensures !r.cookieIsSessionBound && r.cookieTimeout == Some(provider)
    ensures r == m.(cookieIsSessionBound := r.cookieIsSessionBound, cookieTimeout := r.cookieTimeout)
  {
    m.(cookieIsSessionBound := false, cookieTimeout := Some(provider))
  }

  /** `SetCookieAsSecure`. */
  function SetCookieAsSecure(m: Manager, isSecure: bool): (r: Manager)
    ensures r.cookieIsSecure == Some(isSecure)
    ensures r == m.(cookieIsSecure := r.cookieIsSecure)
  {
    m.(cookieIsSecure := Some(isSecure))
  }

  /** `IsCookieSecure`: only when it was set, and set to true. */
  predicate IsCookieSecure(m: Manager) {
    m.cookieIsSecure == Some(true)
  }

  /** A new manager's cookies are not secure-only, and setting the option
      decides it either way. */
  lemma CookieSecureOnlyWhenSet(m: Manager, isSecure: bool)
    ensures !IsCookieSecure(NewAuthManager())
    ensures IsCookieSecure(SetCookieAsSecure(m, isSecure)) == isSecure
    ensures m.cookieIsSecure.None? ==> !IsCookieSecure(m)
  {
  }

  /** `WriteNewCookie`. */
  function WriteNewCookie(ctx: Ctx, name: String, value: String, expires: Option<Time>, path: String, secure: bool): (r: Ctx)
    ensures r.cookies == ctx.cookies + [NewCookie(name, value, expires, path, secure)]
    ensures r.request == ctx.request && r.session == ctx.session
  {
    ctx.(cookies := ctx.cookies + [NewCookie(name, value, expires, path, secure)])
  }

  /** `ExpireCookie`. */
  function ExpireCookie(ctx: Ctx, name: String, path: String): (r: Ctx)
    ensures r.cookies == ctx.cookies + [ExpiredCookie(name, path)]
    ensures r.request == ctx.request && r.session == ctx.session
  {
    ctx.(cookies := ctx.cookies + [ExpiredCookie(name, path)])
  }

  /** `InjectSessionCookie`: a session-bound cookie without expiry, or a
      cookie expiring when the timeout provider says, or no cookie at all
      when the cookies are neither session-bound nor given a timeout. */
  function InjectSessionCookie(m: Manager, ctx: Ctx, sessionID: String): (r: Ctx)
    ensures r.request == ctx.request && r.session == ctx.session
    ensures !m.cookieIsSessionBound && m.cookieTimeout.None? ==> r == ctx
    ensures m.cookieIsSessionBound || m.cookieTimeout.Some? ==>
      |r.cookies| == |ctx.cookies| + 1 && r.cookies[..|ctx.cookies|] == ctx.cookies
      && r.cookies[|ctx.cookies|].NewCookie? && r.cookies[|ctx.cookies|].name == m.paramName
      && r.cookies[|ctx.cookies|].value == sessionID && r.cookies[|ctx.cookies|].path == CookiePath
      && r.cookies[|ctx.cookies|].secure == IsCookieSecure(m)
  {
    if m.cookieIsSessionBound then
      WriteNewCookie(ctx, m.paramName, sessionID, None, CookiePath, IsCookieSecure(m))
    else if m.cookieTimeout.Some? then
      WriteNewCookie(ctx, m.paramName, sessionID, m.cookieTimeout.value(ctx), CookiePath, IsCookieSecure(m))
    else ctx
  }

  /** The cookie mode decides the expiry: none for session-bound cookies,
      the provider's time once a timeout is set. */
  lemma CookieModeToggles(m: Manager, ctx: Ctx, sessionID: String, provider: Ctx -> Option<Time>)
    ensures var r := InjectSessionCookie(SetCookiesAsSessionBound(m), ctx, sessionID);
      r.cookies[|ctx.cookies|].expires.None?
    ensures var r := InjectSessionCookie(SetCookieTimeout(m, provider), ctx, sessionID);
      r.cookies[|ctx.cookies|].expires == provider(ctx)
  {
  }

  /** `Login`: a new session for the user under the given (randomly drawn)
      id; a failing persist handler fails the login and leaves the manager
      and the response alone, otherwise the session is cached and its
      cookie written. */
  function Login(m: Manager, userID: int, ctx: Ctx, sessionID: String, now: Time): (r: (Result<Session, Error>, Manager, Ctx))
    ensures r.0.Err? <==> m.persist.Some? && m.persist.value(NewSession(userID, sessionID, now)).Some?
    ensures r.0.Err? ==> r.1 == m && r.2 == ctx
    ensures r.0.Ok? ==> (r.0.value == NewSession(userID, sessionID, now)
                         && r.1 == m.(cache := Add(m.cache, r.0.value))
                         && r.2 == InjectSessionCookie(m, ctx, sessionID))
  {
    var session := NewSession(userID, sessionID, now);
    if m.persist.Some? && m.persist.value(session).Some? then
      (Err(m.persist.value(session).value), m, ctx)
    else
      (Ok(session), m.(cache := Add(m.cache, session)), InjectSessionCookie(m, ctx, sessionID))
  }

  /** `Logout`: nothing happens without a session; otherwise its id leaves
      the cache, the cookie is expired, and the remove handler's error (if
      one is set) is the answer. */
  function Logout(m: Manager, session: Option<Session>, ctx: Ctx): (r: (Option<Error>, Manager, Ctx))
    ensures session.None? ==> r == (None, m, ctx)
    ensures session.Some? ==>
      r.1 == m.(cache := Expire(m.cache, session.value.sessionID))
      && r.2 == ExpireCookie(ctx, m.paramName, CookiePath)
      && (m.remove.Some? ==> r.0 == m.remove.value(session.value.sessionID))
      && (m.remove.None? ==> r.0.None?)
  {
    match session
    case None => (None, m, ctx)
    case Some(s) =>
      var m' := m.(cache := Expire(m.cache, s.sessionID));
      var ctx' := ExpireCookie(ctx, m.paramName, CookiePath);
      if m.remove.Some? then (m.remove.value(s.sessionID), m', ctx') else (None, m', ctx')
  }

  /** `ReadSessionID`: a non-empty header of the parameter's name wins, then
      a cookie of that name, then "".  blendlabs go-web's ctx.go is not part
      of this model: a header counts when it is non-empty. */
  function ReadSessionID(m: Manager, ctx: Ctx): (id: String)
    ensures Lookup(ctx.request.headers, m.paramName) != "" ==> id == Lookup(ctx.request.headers, m.paramName)
    ensures Lookup(ctx.request.headers, m.paramName) == "" ==> id == Lookup(ctx.request.cookies, m.paramName)
  {
    var header := Lookup(ctx.request.headers, m.paramName);
    if header != "" then header
    else if m.paramName in ctx.request.cookies then ctx.request.cookies[m.paramName]
    else ""
  }

  /** `VerifySession`: a cached id answers its session; without a fetch
      handler, or when it fetches nothing or a zero session, the answer is
      nil and the cookie is expired; a fetch error is passed on; a fetched
      session is cached and returned. */
  function VerifySession(m: Manager, sessionID: String, ctx: Ctx): (r: (Result<Option<Session>, Error>, Manager, Ctx))
    ensures IsActive(m.cache, sessionID) ==> r == (Ok(Get(m.cache, sessionID)), m, ctx)
    ensures !IsActive(m.cache, sessionID) && m.fetch.None? ==>
      r == (Ok(None), m, ExpireCookie(ctx, m.paramName, CookiePath))
    ensures !IsActive(m.cache, sessionID) && m.fetch.Some? ==>
      match m.fetch.value(sessionID)
      case FetchFailed(e) => r == (Err(e), m, ctx)
      case FetchedNil => r == (Ok(None), m, ExpireCookie(ctx, m.paramName, CookiePath))
      case FetchedZero(_) => r == (Ok(None), m, ExpireCookie(ctx, m.paramName, CookiePath))
      case Fetched(s) => r == (Ok(Some(s)), m.(cache := Add(m.cache, s)), ctx)
  {
    if IsActive(m.cache, sessionID) then (Ok(Get(m.cache, sessionID)), m, ctx)
    else if m.fetch.None? then (Ok(None), m, ExpireCookie(ctx, m.paramName, CookiePath))
    else
      match m.fetch.value(sessionID)
      case FetchFailed(e) => (Err(e), m, ctx)
      case FetchedNil => (Ok(None), m, ExpireCookie(ctx, m.paramName, CookiePath))
      case FetchedZero(_) => (Ok(None), m, ExpireCookie(ctx, m.paramName, CookiePath))
      case Fetched(s) => (Ok(Some(s)), m.(cache := Add(m.cache, s)), ctx)
  }

  /** `ReadAndVerifySession`: no id means no session, without any lookup. */
  function ReadAndVerifySession(m: Manager, ctx: Ctx): (r: (Result<Option<Session>, Error>, Manager, Ctx))
    ensures ReadSessionID(m, ctx) == "" ==> r == (Ok(None), m, ctx)
    ensures ReadSessionID(m, ctx) != "" ==> r == VerifySession(m, ReadSessionID(m, ctx), ctx)
  {
    var id := ReadSessionID(m, ctx);
    if |id| > 0 then VerifySession(m, id, ctx) else (Ok(None), m, ctx)
  }

  /** `Redirect`: the login redirect handler's URL when it gives one,
      otherwise not authorized. */
  function Redirect(m: Manager, ctx: Ctx): (r: Outcome<Ctx>)
    ensures r.Redirected? || r.NotAuthorized?
    ensures r.Redirected? <==> m.loginRedirect.Some? && m.loginRedirect.value(ctx.request.url).Some?
    ensures r.Redirected? ==> r.url == m.loginRedirect.value(ctx.request.url).value
  {
    if m.loginRedirect.Some? && m.loginRedirect.value(ctx.request.url).Some? then
      Redirected(m.loginRedirect.value(ctx.request.url).value)
    else NotAuthorized
  }

  /** `SessionAware`: a verify error is an internal error; otherwise the
      action runs, with the session set on the context when there is one. */
  function SessionAware(m: Manager, ctx: Ctx): (r: (Outcome<Ctx>, Manager))
    ensures var v := ReadAndVerifySession(m, ctx);
      r.1 == v.1
      && (v.0.Err? <==> r.0.InternalError?)
      && (v.0.Err? ==> r.0 == InternalError(v.0.error))
      && (v.0.Ok? ==> r.0 == Ran(if v.0.value.Some? then v.2.(session := v.0.value) else v.2))
  {
    var (res, m', ctx') := ReadAndVerifySession(m, ctx);
    match res
    case Err(e) => (InternalError(e), m')
    case Ok(session) => (Ran(if session.Some? then ctx'.(session := session) else ctx'), m')
  }

  /** `SessionRequired`: a missing id, a nil session and a session the
      validate handler rejects all end in the login redirect or not
      authorized; a verify error is an internal error; otherwise the session
      is set on the context and the action runs once. */
  function SessionRequired(m: Manager, ctx: Ctx): (r: (Outcome<Ctx>, Manager))
    ensures ReadSessionID(m, ctx) == "" ==> r == (Redirect(m, ctx), m)
    ensures var v := VerifySession(m, ReadSessionID(m, ctx), ctx);
      ReadSessionID(m, ctx) != "" ==>
        r.1 == v.1
        && (v.0.Err? ==> r.0 == InternalError(v.0.error))
        && (v.0 == Ok(None) ==> r.0 == Redirect(m, v.2))
        && (v.0.Ok? && v.0.value.Some? && m.validate.Some? && m.validate.value(v.0.value.value).Some? ==>
              r.0 == Redirect(m, v.2))
        && (r.0.Ran? <==> v.0.Ok? && v.0.value.Some? && (m.validate.None? || m.validate.value(v.0.value.value).None?))
        && (r.0.Ran? ==> r.0.ctx == v.2.(session := v.0.value))
  {
    var id := ReadSessionID(m, ctx);
    if |id| == 0 then (Redirect(m, ctx), m)
    else
      var (res, m', ctx') := VerifySession(m, id, ctx);
      match res
      case Err(e) => (InternalError(e), m')
      case Ok(None) => (Redirect(m', ctx'), m')
      case Ok(Some(session)) =>
        if m.validate.Some? && m.validate.value(session).Some? then (Redirect(m', ctx'), m')
        else (Ran(ctx'.(session := Some(session))), m')
  }

  /** Whenever `SessionRequired` runs the action, `SessionAware` runs it on
      the same context with the same session and leaves the manager alike. */
  lemma RequiredRunsAsAware(m: Manager, ctx: Ctx)
    requires SessionRequired(m, ctx).0.Ran?
    ensures SessionAware(m, ctx) == SessionRequired(m, ctx)
  {
  }

  /** A signed-in session is found in the cache by its id, and is gone from
      it after signing out. */
  lemma LoginVerifyLogout(m: Manager, userID: int, ctx: Ctx, sessionID: String, now: Time)
    requires Login(m, userID, ctx, sessionID, now).0.Ok?
    ensures var (s, m', ctx') := Login(m, userID, ctx, sessionID, now);
      VerifySession(m', sessionID, ctx').0 == Ok(Some(s.value))
      && !IsActive(Logout(m', Some(s.value), ctx').1.cache, sessionID)
  {
  }

  /** The cookie a session-bound login writes carries the session id back:
      a later request with that cookie and no header reads the same id. */
  lemma LoginCookieReadsBack(m: Manager, userID: int, ctx: Ctx, sessionID: String, now: Time, next: Request)
    requires m.cookieIsSessionBound && Login(m, userID, ctx, sessionID, now).0.Ok?
    requires var c := Login(m, userID, ctx, sessionID, now).2.cookies[|ctx.cookies|];
      Lookup(next.headers, m.paramName) == "" && next.cookies == map[c.name := c.value]
    ensures ReadSessionID(m, Ctx(next, None, [])) == sessionID
  {
  }
}
