/** What go-web's session support is built from: the `Session` record, the
    in-memory `SessionCache` keyed by session id, the parts of a request the
    session id is read from, the cookies a response writes, and the results
    a session middleware can end in.  blendlabs/go-web and wcharczuk/go-web
    declare the same session record and cache; giffy's own server/core/auth
    cache reuses the map operations with a session record of its own. */
module WebSession {
  import opened Wrappers
  import opened GoStrings
  import opened GoTime
  import opened Ledger

  /** A Go `error`, by its message. */
  datatype Error = Error(message: String)

  /** A value kept in a session's `State` map, which Go types as
      `interface{}`: a `*model.User` (possibly a nil pointer) or anything else. */
  datatype Value = UserValue(user: Option<User>) | Opaque(id: int)

  /** go-web's `Session`; a nil `State` map is `None`.  The mutex is left out. */
  datatype Session = Session(userID: int, sessionID: String, createdUtc: Time,
                             state: Option<map<String, Value>>)

  /** The state map as Go reads it: a nil map reads as empty. */
  function StateOf(s: Session): (m: map<String, Value>)
    ensures s.state.Some? ==> m == s.state.value
    ensures s.state.None? ==> |m| == 0
  {
    if s.state.Some? then s.state.value else map[]
  }

  /** `NewSession`: the given ids, the creation time, and an empty (non-nil) state. */
  function NewSession(userID: int, sessionID: String, now: Time): (s: Session)
    ensures s.userID == userID && s.sessionID == sessionID && s.createdUtc == now
    ensures s.state == Some(map[])
  {
    Session(userID, sessionID, now, Some(map[]))
  }

  /** A session cache: sessions by session id. */
  type Cache<S> = map<String, S>

  /** `sc.Sessions[id] = session`: the id now names the session and every
      other entry is as it was. */
  function Put<S>(c: Cache<S>, id: String, s: S): (r: Cache<S>)
    ensures IsActive(r, id) && Get(r, id) == Some(s)
    ensures forall k :: k != id ==> (IsActive(r, k) <==> IsActive(c, k))
    ensures forall k :: k != id && IsActive(c, k) ==> Get(r, k) == Get(c, k)
  {
    c[id := s]
  }

  /** `SessionCache.Add`: the session is cached under its own id. */
  function Add(c: Cache<Session>, s: Session): (r: Cache<Session>)
    ensures IsActive(r, s.sessionID) && Get(r, s.sessionID) == Some(s)
    ensures forall k :: k != s.sessionID ==> (IsActive(r, k) <==> IsActive(c, k))
  {
    Put(c, s.sessionID, s)
  }

  /** `SessionCache.Expire`: the id is no longer cached and nothing else changes. */
  function Expire<S>(c: Cache<S>, id: String): (r: Cache<S>)
    ensures !IsActive(r, id)
    ensures forall k :: k != id ==> (IsActive(r, k) <==> IsActive(c, k))
    ensures forall k :: k != id && IsActive(c, k) ==> Get(r, k) == Get(c, k)
  {
    c - {id}
  }

  /** `SessionCache.IsActive`. */
  predicate IsActive<S>(c: Cache<S>, id: String) {
    id in c
  }

  /** `SessionCache.Get`: the cached session, or nil for an id the cache does not hold. */
  function Get<S>(c: Cache<S>, id: String): (r: Option<S>)
    ensures r.Some? <==> IsActive(c, id)
    ensures r.Some? ==> r.value == c[id]
  {
    if id in c then Some(c[id]) else None
  }

  /** The cache laws: a fresh cache holds nothing, re-adding an id replaces
      its session, and expiring an id undoes adding it when the id was not
      cached before. */
  lemma CacheLaws<S>(c: Cache<S>, id: String, s: S, s': S)
    ensures var empty: Cache<S> := map[]; !IsActive(empty, id) && Get(empty, id).None?
    ensures Put(Put(c, id, s), id, s') == Put(c, id, s')
    ensures !IsActive(c, id) ==> Expire(Put(c, id, s), id) == c
    ensures Expire(Expire(c, id), id) == Expire(c, id)
  {
  }

  /** What a session fetch handler answers: an error, a nil session, a
      session whose `IsZero` holds (go-web's session.go, which defines it, is
      not part of this model), or a session. */
  datatype Fetch =
    | FetchFailed(err: Error)
    | FetchedNil
    | FetchedZero(zero: Session)
    | Fetched(session: Session)

  /** A URL by the two parts the login redirects set. */
  datatype Url = Url(path: String, rawQuery: String)

  /** What a session id can be read from: the request URL and its query,
      its headers, its form values and its cookies, each by name. */
  datatype Request = Request(url: Url, query: map<String, String>, headers: map<String, String>,
                             form: map<String, String>, cookies: map<String, String>)

  /** A value of one of the request's maps, or "" when it has none. */
  function Lookup(m: map<String, String>, name: String): (v: String)
    ensures name in m ==> v == m[name]
    ensures name !in m ==> v == ""
  {
    if name in m then m[name] else ""
  }

  /** `RequestContext.Param`: the first non-empty value among the query, the
      headers, the form and the cookies, or "". */
  function Param(req: Request, name: String): (v: String)
    ensures v == "" || v == Lookup(req.query, name) || v == Lookup(req.headers, name)
      || v == Lookup(req.form, name) || v == Lookup(req.cookies, name)
    ensures Lookup(req.query, name) != "" ==> v == Lookup(req.query, name)
    ensures v == "" <==> (Lookup(req.query, name) == "" && Lookup(req.headers, name) == ""
                          && Lookup(req.form, name) == "" && Lookup(req.cookies, name) == "")
  {
    if Lookup(req.query, name) != "" then Lookup(req.query, name)
    else if Lookup(req.headers, name) != "" then Lookup(req.headers, name)
    else if Lookup(req.form, name) != "" then Lookup(req.form, name)
    else Lookup(req.cookies, name)
  }

  /** A cookie the response sets: a new one, or an expired one that makes
      the browser drop the cookie of that name. */
  datatype CookieWrite =
    | NewCookie(name: String, value: String, expires: Option<Time>, path: String, secure: bool)
    | ExpiredCookie(name: String, path: String)

  /** The result of an action wrapped in a session middleware: the
      middleware's own answers, or the wrapped action run once on the
      request context `ctx` the middleware hands it. */
  datatype Outcome<C> =
    | Panic
    | InternalError(err: Error)
    | NotAuthorized
    | Redirected(url: Url)
    | Ran(ctx: C)
}
