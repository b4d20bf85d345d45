/** giffy's own session handling (server/auth/auth.go with the session
    cache of server/core/auth/session_cache.go): sessions live in the
    user_session table and in a process-wide cache that also holds the
    session's user, and the `SessionAware` and `SessionRequired` wrappers
    verify the `giffy_auth` parameter before an action runs.  The cache
    singleton and its mutex, and the per-session lock policies, are left
    out; the cache is passed along explicitly. */
module ServerAuth {
  import opened Wrappers
  import opened GoStrings
  import opened GoTime
  import opened Ledger
  import opened WebSession
  import opened SessionUser

  /** `SessionParamName`. */
  const SessionParamName: String := "giffy_auth"

  /** `StateKeySession`. */
  const StateKeySession: String := "__session__"

  /** `auth.Session`, named apart from go-web's session: the ids, the
      creation time, the user read when the session was cached, and a
      state map of opaque values. */
  datatype AuthSession = AuthSession(userID: int, sessionID: String, createdUtc: Time,
                                     user: Option<User>, state: map<String, Value>)

  /** `NewSession`: no user yet and an empty state. */
  function NewSession(userID: int, sessionID: String, now: Time): (s: AuthSession)
    ensures s.userID == userID && s.sessionID == sessionID && s.createdUtc == now
    ensures s.user.None? && s.state == map[]
  {
    AuthSession(userID, sessionID, now, None, map[])
  }

  /** `SessionCache.Add`: the user is looked up by id; a failed lookup is
      answered with its error and leaves the cache as it was, otherwise the
      new session carries the user (`GetUserByID` always gives a user
      record, the zero one when there is no such row) and is cached under
      the session id. */
  function Add(c: Cache<AuthSession>, userID: int, sessionID: String, now: Time,
               users: int -> Result<User, Error>): (r: (Result<AuthSession, Error>, Cache<AuthSession>))
    ensures users(userID).Err? ==> r == (Err(users(userID).error), c)
    ensures users(userID).Ok? ==> r.0.Ok?
    ensures r.0.Ok? ==>
      r.0.value.userID == userID && r.0.value.sessionID == sessionID && r.0.value.createdUtc == now
      && r.0.value.user == Some(users(userID).value) && r.0.value.state == map[]
      && r.1 == Put(c, sessionID, r.0.value)
  {
    var session := NewSession(userID, sessionID, now);
    match users(session.userID)
    case Err(e) => (Err(e), c)
    case Ok(user) =>
      var session' := session.(user := Some(user));
      (Ok(session'), Put(c, sessionID, session'))
  }

  /** A value of the request state (`interface{}`): a `*Session`, possibly
      nil, or anything else. */
  datatype StateValue = SessionValue(session: Option<AuthSession>) | OtherState(id: int)

  /** The request context: whether a default result provider is set, the
      request, its state, and the cookies written to the response so far. */
  datatype Ctx = Ctx(hasResultProvider: bool, request: Request, state: map<String, StateValue>,
                     cookies: seq<CookieWrite>)

  /** `InjectSession`: the session (nil included) goes under the session
      key and the rest of the state is kept. */
  function InjectSession(session: Option<AuthSession>, ctx: Ctx): (r: Ctx)
    ensures StateKeySession in r.state && r.state[StateKeySession] == SessionValue(session)
    ensures forall k :: k != StateKeySession ==> (k in r.state <==> k in ctx.state)
    ensures forall k :: k != StateKeySession && k in ctx.state ==> r.state[k] == ctx.state[k]
    ensures r.request == ctx.request && r.cookies == ctx.cookies && r.hasResultProvider == ctx.hasResultProvider
  {
    ctx.(state := ctx.state[StateKeySession := SessionValue(session)])
  }

  /** `GetSession`: the injected `*Session`, or nil when the key is missing
      or holds something else. */
  function GetSession(ctx: Ctx): (r: Option<AuthSession>)
    ensures r.Some? ==> StateKeySession in ctx.state && ctx.state[StateKeySession] == SessionValue(r)
    ensures StateKeySession !in ctx.state || ctx.state[StateKeySession].OtherState? ==> r.None?
  {
    if StateKeySession in ctx.state && ctx.state[StateKeySession].SessionValue? then
      ctx.state[StateKeySession].session
    else None
  }

  /** Getting the session after injecting it gives it back, nil included. */
  lemma InjectThenGet(session: Option<AuthSession>, ctx: Ctx)
    ensures GetSession(InjectSession(session, ctx)) == session
  {
  }

  /** `VerifySession`: a cached id answers its session; otherwise the
      user_session row is read: a read error is passed on, a zero row means
      no session, and a row is turned into a cached session by `Add`. */
  function VerifySession(c: Cache<AuthSession>, sessionID: String, db: Lookups, now: Time): (r: (Result<Option<AuthSession>, Error>, Cache<AuthSession>))
    ensures IsActive(c, sessionID) ==> r == (Ok(Get(c, sessionID)), c)
    ensures !IsActive(c, sessionID) && db.sessions(sessionID).Err? ==> r == (Err(db.sessions(sessionID).error), c)
    ensures !IsActive(c, sessionID) && db.sessions(sessionID).Ok? && db.sessions(sessionID).value.IsZero() ==>
      r == (Ok(None), c)
    ensures !IsActive(c, sessionID) && db.sessions(sessionID).Ok? && !db.sessions(sessionID).value.IsZero() ==>
      var row := db.sessions(sessionID).value;
      var a := Add(c, row.userID, row.sessionID, now, db.users);
      r.1 == a.1 && (r.0.Err? <==> a.0.Err?) && (r.0.Ok? ==> r.0.value == Some(a.0.value))
  {
    if IsActive(c, sessionID) then (Ok(Get(c, sessionID)), c)
    else
      match db.sessions(sessionID)
      case Err(e) => (Err(e), c)
      case Ok(row) =>
        if row.IsZero() then (Ok(None), c)
        else
          var (res, c') := Add(c, row.userID, row.sessionID, now, db.users);
          match res
          case Err(e) => (Err(e), c')
          case Ok(s) => (Ok(Some(s)), c')
  }

  /** A session verified from the table is cached: verifying the id again
      answers the same session without reading the table. */
  lemma VerifyCaches(c: Cache<AuthSession>, sessionID: String, db: Lookups, now: Time, db': Lookups, later: Time)
    requires db.sessions(sessionID).Ok? ==> db.sessions(sessionID).value.sessionID == sessionID
    ensures var (r, c') := VerifySession(c, sessionID, db, now);
      r.Ok? && r.value.Some? ==> VerifySession(c', sessionID, db', later) == (r, c')
  {
  }

  /** `sessionAware`: it panics without a default result provider; without
      an id the action runs on the context as it is; with one, a verify
      error is an internal error, and otherwise the session, nil included,
      is injected before the action runs. */
  function SessionAware(c: Cache<AuthSession>, db: Lookups, now: Time, ctx: Ctx): (r: (Outcome<Ctx>, Cache<AuthSession>))
    ensures !ctx.hasResultProvider ==> r == (Panic, c)
    ensures ctx.hasResultProvider && Param(ctx.request, SessionParamName) == "" ==> r == (Ran(ctx), c)
    ensures var v := VerifySession(c, Param(ctx.request, SessionParamName), db, now);
      ctx.hasResultProvider && Param(ctx.request, SessionParamName) != "" ==>
        r.1 == v.1
        && (v.0.Err? ==> r.0 == InternalError(v.0.error))
        && (v.0.Ok? ==> r.0 == Ran(InjectSession(v.0.value, ctx)))
  {
    if !ctx.hasResultProvider then (Panic, c)
    else
      var id := Param(ctx.request, SessionParamName);
      if |id| != 0 then
        var (res, c') := VerifySession(c, id, db, now);
        match res
        case Err(e) => (InternalError(e), c')
        case Ok(session) => (Ran(InjectSession(session, ctx)), c')
      else (Ran(ctx), c)
  }

  /** Whether a session's user is banned; a session without a user is not. */
  predicate IsBanned(s: AuthSession) {
    s.user.Some? && s.user.value.isBanned
  }

  /** `sessionRequired`: it panics without a default result provider; a
      missing id, no session and a banned user are not authorized; a verify
      error is an internal error; otherwise the session is injected and the
      action runs once. */
  function SessionRequired(c: Cache<AuthSession>, db: Lookups, now: Time, ctx: Ctx): (r: (Outcome<Ctx>, Cache<AuthSession>))
    ensures !ctx.hasResultProvider ==> r == (Panic, c)
    ensures ctx.hasResultProvider && Param(ctx.request, SessionParamName) == "" ==> r == (NotAuthorized, c)
    ensures var v := VerifySession(c, Param(ctx.request, SessionParamName), db, now);
      ctx.hasResultProvider && Param(ctx.request, SessionParamName) != "" ==>
        r.1 == v.1
        && (v.0.Err? ==> r.0 == InternalError(v.0.error))
        && (v.0 == Ok(None) ==> r.0 == NotAuthorized)
        && (v.0.Ok? && v.0.value.Some? && IsBanned(v.0.value.value) ==> r.0 == NotAuthorized)
        && (r.0.Ran? <==> v.0.Ok? && v.0.value.Some? && !IsBanned(v.0.value.value))
        && (r.0.Ran? ==> r.0.ctx == InjectSession(v.0.value, ctx))
  {
    if !ctx.hasResultProvider then (Panic, c)
    else
      var id := Param(ctx.request, SessionParamName);
      if |id| == 0 then (NotAuthorized, c)
      else
        var (res, c') := VerifySession(c, id, db, now);
        match res
        case Err(e) => (InternalError(e), c')
        case Ok(None) => (NotAuthorized, c')
        case Ok(Some(session)) =>
          if IsBanned(session) then (NotAuthorized, c')
          else (Ran(InjectSession(Some(session), ctx)), c')
  }

  /** An action behind `SessionRequired` always finds a session of a user
      who is not banned, and `SessionAware` would have run it on the same
      context. */
  lemma RequiredSessionIsUsable(c: Cache<AuthSession>, db: Lookups, now: Time, ctx: Ctx)
    requires SessionRequired(c, db, now, ctx).0.Ran?
    ensures var s := GetSession(SessionRequired(c, db, now, ctx).0.ctx);
      s.Some? && !IsBanned(s.value)
    ensures SessionAware(c, db, now, ctx) == SessionRequired(c, db, now, ctx)
  {
  }

  /** `Login`: the user_session row is created under the given (randomly
      drawn) id; if that fails, nothing else happens.  Otherwise the
      session is added to the cache, with the cache's error ignored, and a
      secure cookie for the id expiring a month later is written when there
      is a context. */
  function Login(c: Cache<AuthSession>, userID: int, ctx: Option<Ctx>, sessionID: String, created: Option<Error>,
                 now: Time, monthLater: Time, users: int -> Result<User, Error>): (r: (Result<String, Error>, Cache<AuthSession>, Option<Ctx>))
    ensures created.Some? ==> r == (Err(created.value), c, ctx)
    ensures created.None? ==> r.0 == Ok(sessionID) && r.1 == Add(c, userID, sessionID, now, users).1
    ensures created.None? && ctx.Some? ==>
      r.2 == Some(ctx.value.(cookies := ctx.value.cookies + [NewCookie(SessionParamName, sessionID, Some(monthLater), "/", true)]))
    ensures ctx.None? ==> r.2.None?
  {
    if created.Some? then (Err(created.value), c, ctx)
    else
      var c' := Add(c, userID, sessionID, now, users).1;
      var ctx' := if ctx.Some? then
        Some(ctx.value.(cookies := ctx.value.cookies + [NewCookie(SessionParamName, sessionID, Some(monthLater), "/", true)]))
      else None;
      (Ok(sessionID), c', ctx')
  }

  /** `Logout`: the id leaves the cache, the cookie is expired when there is
      a context, and the answer is the row deletion's. */
  function Logout(c: Cache<AuthSession>, userID: int, sessionID: String, ctx: Option<Ctx>, deleted: Option<Error>): (r: (Option<Error>, Cache<AuthSession>, Option<Ctx>))
    ensures r.0 == deleted && r.1 == Expire(c, sessionID)
    ensures ctx.Some? ==> r.2 == Some(ctx.value.(cookies := ctx.value.cookies + [ExpiredCookie(SessionParamName, "/")]))
    ensures ctx.None? ==> r.2.None?
  {
    var ctx' := if ctx.Some? then Some(ctx.value.(cookies := ctx.value.cookies + [ExpiredCookie(SessionParamName, "/")])) else None;
    (deleted, Expire(c, sessionID), ctx')
  }

  /** After a login whose user lookup succeeds, the id is verified from the
      cache, without reading the table, as a session of that user; after
      logging out it is no longer cached. */
  lemma LoginVerifyLogout(c: Cache<AuthSession>, userID: int, ctx: Option<Ctx>, sessionID: String,
                          now: Time, monthLater: Time, users: int -> Result<User, Error>, db: Lookups, later: Time)
    requires users(userID).Ok?
    ensures var (r, c', _) := Login(c, userID, ctx, sessionID, None, now, monthLater, users);
      var v := VerifySession(c', sessionID, db, later).0;
      r == Ok(sessionID) && v.Ok? && v.value.Some? && v.value.value.userID == userID
      && v.value.value.user == Some(users(userID).value)
      && !IsActive(Logout(c', userID, sessionID, ctx, None).1, sessionID)
  {
  }
}
