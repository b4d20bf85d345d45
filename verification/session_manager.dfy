/** wcharczuk/go-web's `SessionManager` and its session middleware, the
    older generation of blendlabs/go-web's auth manager: the session id is
    read with `Param`, the session travels in the request state under
    `StateKeySession`, and a missing fetch handler is an error.  The
    database transaction a handler is given is left out. */
module SessionManager {
  import opened Wrappers
  import opened GoStrings
  import opened GoTime
  import opened WebSession

  /** `SessionParamName`. */
  const SessionParamName: String := "__auth_token__"

  /** `StateKeySession`. */
  const StateKeySession: String := "__session__"

  /** The error `VerifySession` answers when it has no fetch handler. */
  const NoFetchHandler: Error := Error("Must provide a `fetchHandler` to retrieve dormant sessions.")

  /** A value of the request state, which Go types as `interface{}`: a
      `*Session` (possibly nil) or anything else. */
  datatype StateValue = SessionValue(session: Option<Session>) | OtherState(id: int)

  /** The request context: the request, its state, and the cookies written
      to the response so far, in order. */
  datatype Ctx = Ctx(request: Request, state: map<String, StateValue>, cookies: seq<CookieWrite>)

  /** `SessionManager`; a handler that was never set is `None`. */
  datatype Manager = Manager(
    cache: Cache<Session>,
    persist: Option<Session -> Option<Error>>,
    fetch: Option<String -> Fetch>,
    remove: Option<String -> Option<Error>>,
    validate: Option<Session -> Option<Error>>,
    loginRedirect: Option<Url -> Option<Url>>,
    cookieIsSession: bool,
    cookieTimeout: Option<() -> Option<Time>>)

  /** `NewSessionManager`: an empty cache, session-bound cookies, no handlers. */
  function NewSessionManager(): (m: Manager)
    ensures m.cache == map[] && m.cookieIsSession && m.cookieTimeout.None?
    ensures m.persist.None? && m.fetch.None? && m.remove.None? && m.validate.None? && m.loginRedirect.None?
  {
    Manager(map[], None, None, None, None, None, true, None)
  }

  /** `SetCookiesAsSessionBound`. */
  function SetCookiesAsSessionBound(m: Manager): (r: Manager)
    ensures r.cookieIsSession && r.cookieTimeout.None?
    ensures r == m.(cookieIsSession := r.cookieIsSession, cookieTimeout := r.cookieTimeout)
  {
    m.(cookieIsSession := true, cookieTimeout := None)
  }

  /** `SetCookieTimeout`. */
  function SetCookieTimeout(m: Manager, timeout: () -> Option<Time>): (r: Manager)
    ensures !r.cookieIsSession && r.cookieTimeout == Some(timeout)
    ensures r == m.(cookieIsSession := r.cookieIsSession, cookieTimeout := r.cookieTimeout)
  {
    m.(cookieIsSession := false, cookieTimeout := Some(timeout))
  }

  /** `InjectSession`: the session (nil included) is stored under the
      session key; every other state key keeps its value. */
  function InjectSession(session: Option<Session>, ctx: Ctx): (r: Ctx)
    ensures StateKeySession in r.state && r.state[StateKeySession] == SessionValue(session)
    ensures forall k :: k != StateKeySession ==> (k in r.state <==> k in ctx.state)
    ensures forall k :: k != StateKeySession && k in ctx.state ==> r.state[k] == ctx.state[k]
    ensures r.request == ctx.request && r.cookies == ctx.cookies
  {
    ctx.(state := ctx.state[StateKeySession := SessionValue(session)])
  }

  /** `GetSession`: the `*Session` under the session key, or nil when the
      key is missing or holds a value of another type. */
  function GetSession(ctx: Ctx): (r: Option<Session>)
    ensures r.Some? ==> StateKeySession in ctx.state && ctx.state[StateKeySession] == SessionValue(r)
    ensures StateKeySession !in ctx.state || ctx.state[StateKeySession].OtherState? ==> r.None?
  {
    if StateKeySession in ctx.state && ctx.state[StateKeySession].SessionValue? then
      ctx.state[StateKeySession].session
    else None
  }

  /** Getting the session after injecting it gives it back, nil included. */
  lemma InjectThenGet(session: Option<Session>, ctx: Ctx)
    ensures GetSession(InjectSession(session, ctx)) == session
  {
  }

  /** `Login`: a new session under the given (randomly drawn) id; a failing
      persist handler fails the login and changes nothing, otherwise the
      session is cached and, given a context, its cookie is written:
      without expiry when cookies are session-bound, with the timeout's
      expiry when one is set. */
  function Login(m: Manager, userID: int, ctx: Option<Ctx>, sessionID: String, now: Time): (r: (Result<Session, Error>, Manager, Option<Ctx>))
    ensures r.0.Err? <==> m.persist.Some? && m.persist.value(NewSession(userID, sessionID, now)).Some?
    ensures r.0.Err? ==> r.1 == m && r.2 == ctx
    ensures r.0.Ok? ==> (r.0.value == NewSession(userID, sessionID, now)
                         && r.1 == m.(cache := Add(m.cache, r.0.value)))
    ensures r.0.Ok? && ctx.Some? && m.cookieIsSession ==>
      r.2 == Some(ctx.value.(cookies := ctx.value.cookies + [NewCookie(SessionParamName, sessionID, None, "/", false)]))
    ensures r.0.Ok? && ctx.Some? && !m.cookieIsSession && m.cookieTimeout.Some? ==>
      r.2 == Some(ctx.value.(cookies := ctx.value.cookies + [NewCookie(SessionParamName, sessionID, m.cookieTimeout.value(), "/", false)]))
    ensures r.0.Ok? && (ctx.None? || (!m.cookieIsSession && m.cookieTimeout.None?)) ==> r.2 == ctx
  {
    var session := NewSession(userID, sessionID, now);
    if m.persist.Some? && m.persist.value(session).Some? then
      (Err(m.persist.value(session).value), m, ctx)
    else
      var m' := m.(cache := Add(m.cache, session));
      match ctx
      case None => (Ok(session), m', ctx)
      case Some(c) =>
        if m.cookieIsSession then
          (Ok(session), m', Some(c.(cookies := c.cookies + [NewCookie(SessionParamName, sessionID, None, "/", false)])))
        else if m.cookieTimeout.Some? then
          (Ok(session), m', Some(c.(cookies := c.cookies + [NewCookie(SessionParamName, sessionID, m.cookieTimeout.value(), "/", false)])))
        else (Ok(session), m', ctx)
  }

  /** `Logout`: the id leaves the cache, the cookie is expired when there
      is a context, and the remove handler's error (if one is set) is the
      answer.  The user id is not used. */
  function Logout(m: Manager, userID: int, sessionID: String, ctx: Option<Ctx>): (r: (Option<Error>, Manager, Option<Ctx>))
    ensures r.1 == m.(cache := Expire(m.cache, sessionID))
    ensures ctx.Some? ==> r.2 == Some(ctx.value.(cookies := ctx.value.cookies + [ExpiredCookie(SessionParamName, "")]))
    ensures ctx.None? ==> r.2.None?
    ensures m.remove.Some? ==> r.0 == m.remove.value(sessionID)
    ensures m.remove.None? ==> r.0.None?
  {
    var m' := m.(cache := Expire(m.cache, sessionID));
    var ctx' := if ctx.Some? then Some(ctx.value.(cookies := ctx.value.cookies + [ExpiredCookie(SessionParamName, "")])) else None;
    if m.remove.Some? then (m.remove.value(sessionID), m', ctx') else (None, m', ctx')
  }

  /** `VerifySession`: a cached id answers its session; without a fetch
      handler the answer is an error; a fetch error is passed on; any
      non-nil fetched session, a zero one included, is cached and returned. */
  function VerifySession(m: Manager, sessionID: String): (r: (Result<Option<Session>, Error>, Manager))
    ensures IsActive(m.cache, sessionID) ==> r == (Ok(Get(m.cache, sessionID)), m)
    ensures !IsActive(m.cache, sessionID) && m.fetch.None? ==> r == (Err(NoFetchHandler), m)
    ensures !IsActive(m.cache, sessionID) && m.fetch.Some? ==>
      match m.fetch.value(sessionID)
      case FetchFailed(e) => r == (Err(e), m)
      case FetchedNil => r == (Ok(None), m)
      case FetchedZero(s) => r == (Ok(Some(s)), m.(cache := Add(m.cache, s)))
      case Fetched(s) => r == (Ok(Some(s)), m.(cache := Add(m.cache, s)))
  {
    if IsActive(m.cache, sessionID) then (Ok(Get(m.cache, sessionID)), m)
    else if m.fetch.None? then (Err(NoFetchHandler), m)
    else
      match m.fetch.value(sessionID)
      case FetchFailed(e) => (Err(e), m)
      case FetchedNil => (Ok(None), m)
      case FetchedZero(s) => (Ok(Some(s)), m.(cache := Add(m.cache, s)))
      case Fetched(s) => (Ok(Some(s)), m.(cache := Add(m.cache, s)))
  }

  /** The login redirect handler's URL when it gives one, otherwise not
      authorized: the answer of every failed `SessionRequired` check. */
  function Redirect(m: Manager, ctx: Ctx): (r: Outcome<Ctx>)
    ensures r.Redirected? || r.NotAuthorized?
    ensures r.Redirected? <==> m.loginRedirect.Some? && m.loginRedirect.value(ctx.request.url).Some?
    ensures r.Redirected? ==> r.url == m.loginRedirect.value(ctx.request.url).value
  {
    if m.loginRedirect.Some? && m.loginRedirect.value(ctx.request.url).Some? then
      Redirected(m.loginRedirect.value(ctx.request.url).value)
    else NotAuthorized
  }

  /** `SessionAware`: without an id the action runs on the context as it
      is; with one, a verify error is an internal error, and otherwise the
      session, nil included, is injected before the action runs. */
  function SessionAware(m: Manager, ctx: Ctx): (r: (Outcome<Ctx>, Manager))
    ensures Param(ctx.request, SessionParamName) == "" ==> r == (Ran(ctx), m)
    ensures var v := VerifySession(m, Param(ctx.request, SessionParamName));
      Param(ctx.request, SessionParamName) != "" ==>
        r.1 == v.1
        && (v.0.Err? ==> r.0 == InternalError(v.0.error))
        && (v.0.Ok? ==> r.0 == Ran(InjectSession(v.0.value, ctx)))
  {
    var id := Param(ctx.request, SessionParamName);
    if |id| > 0 then
      var (res, m') := VerifySession(m, id);
      match res
      case Err(e) => (InternalError(e), m')
      case Ok(session) => (Ran(InjectSession(session, ctx)), m')
    else (Ran(ctx), m)
  }

  /** `SessionRequired`: a missing id, a nil session and a session the
      validate handler rejects end in the login redirect or not authorized;
      a verify error is an internal error; otherwise the session is
      injected and the action runs once. */
  function SessionRequired(m: Manager, ctx: Ctx): (r: (Outcome<Ctx>, Manager))
    ensures Param(ctx.request, SessionParamName) == "" ==> r == (Redirect(m, ctx), m)
    ensures var v := VerifySession(m, Param(ctx.request, SessionParamName));
      Param(ctx.request, SessionParamName) != "" ==>
        r.1 == v.1
        && (v.0.Err? ==> r.0 == InternalError(v.0.error))
        && (v.0 == Ok(None) ==> r.0 == Redirect(m, ctx))
        && (v.0.Ok? && v.0.value.Some? && m.validate.Some? && m.validate.value(v.0.value.value).Some? ==>
              r.0 == Redirect(m, ctx))
        && (r.0.Ran? <==> v.0.Ok? && v.0.value.Some? && (m.validate.None? || m.validate.value(v.0.value.value).None?))
        && (r.0.Ran? ==> r.0.ctx == InjectSession(v.0.value, ctx))
  {
    var id := Param(ctx.request, SessionParamName);
    if |id| == 0 then (Redirect(m, ctx), m)
    else
      var (res, m') := VerifySession(m, id);
      match res
      case Err(e) => (InternalError(e), m')
      case Ok(None) => (Redirect(m, ctx), m')
      case Ok(Some(session)) =>
        if m.validate.Some? && m.validate.value(session).Some? then (Redirect(m, ctx), m')
        else (Ran(InjectSession(Some(session), ctx)), m')
  }

  /** Whenever `SessionRequired` runs the action, `SessionAware` runs it on
      the same context, and the action finds a session there. */
  lemma RequiredRunsAsAware(m: Manager, ctx: Ctx)
    requires SessionRequired(m, ctx).0.Ran?
    ensures SessionAware(m, ctx) == SessionRequired(m, ctx)
    ensures GetSession(SessionRequired(m, ctx).0.ctx).Some?
  {
  }

  /** A signed-in session is found in the cache by its id without any
      fetch, and is gone from it after signing out. */
  lemma LoginVerifyLogout(m: Manager, userID: int, ctx: Option<Ctx>, sessionID: String, now: Time)
    requires Login(m, userID, ctx, sessionID, now).0.Ok?
    ensures var (s, m', _) := Login(m, userID, ctx, sessionID, now);
      VerifySession(m', sessionID) == (Ok(Some(s.value)), m')
      && !IsActive(Logout(m', userID, sessionID, ctx).1.cache, sessionID)
  {
  }
}
