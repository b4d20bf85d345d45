/** How giffy's server keeps the signed-in user on a go-web session
    (server/webutil/auth.go, and the same pair of helpers in
    server/controller/util.go), where it sends a visitor who must sign in,
    how it loads and saves sessions in the user_session table, and the
    lenient integer parsing of the controllers. */
module SessionUser {
  import opened Wrappers
  import opened GoStrings
  import opened GoTime
  import opened Ledger
  import opened WebSession
  import Decimal
  import ConnString

  /** `SessionStateUserKey`. */
  const UserKey: String := "User"

  /** `GetUser`: the `*model.User` stored under the user key, or nil for a
      nil session, a missing key, or a value of another type. */
  function GetUser(session: Option<Session>): (r: Option<User>)
    ensures session.None? ==> r.None?
    ensures r.Some? ==> UserKey in StateOf(session.value) && StateOf(session.value)[UserKey] == UserValue(r)
  {
    match session
    case None => None
    case Some(s) =>
      var state := StateOf(s);
      if UserKey in state && state[UserKey].UserValue? then state[UserKey].user else None
  }

  /** `SetUser`: the state map is created when nil and the user stored under
      the user key; the ids, the creation time and every other key keep
      their values. */
  function SetUser(session: Session, user: Option<User>): (r: Session)
    ensures r.userID == session.userID && r.sessionID == session.sessionID
    ensures r.createdUtc == session.createdUtc && r.state.Some?
    ensures UserKey in StateOf(r)
    ensures forall k :: k != UserKey ==> (k in StateOf(r) <==> k in StateOf(session))
    ensures forall k :: k != UserKey && k in StateOf(session) ==> StateOf(r)[k] == StateOf(session)[k]
  {
    session.(state := Some(StateOf(session)[UserKey := UserValue(user)]))
  }

  /** Reading the user back after storing it gives the same user, nil included. */
  lemma SetThenGetUser(session: Session, user: Option<User>)
    ensures GetUser(Some(SetUser(session, user))) == user
  {
  }

  /** `GetUser` is nil exactly when there is no session, no user key, a
      value of another type, or a stored nil user. */
  lemma GetUserNil(session: Option<Session>)
    ensures GetUser(session).None? <==>
      (session.None? || UserKey !in StateOf(session.value)
       || !StateOf(session.value)[UserKey].UserValue?
       || StateOf(session.value)[UserKey].user.None?)
  {
  }

  /** `LoginRedirect`: the site root, with the page the visitor came from as
      an escaped `redirect` query unless that page is the root itself. */
  function LoginRedirect(from: ByteString): (r: Url)
    ensures r.path == "/"
    ensures from == "/" ==> r.rawQuery == ""
    ensures from != "/" ==> HasPrefix(r.rawQuery, "redirect=")
  {
    if from != "/" then Url("/", "redirect=" + ConnString.QueryEscape(from)) else Url("/", "")
  }

  /** The login page can always recover where the visitor came from: the
      query is empty only for the root, and otherwise unescapes to the path. */
  lemma LoginRedirectReadsBack(from: ByteString)
    ensures LoginRedirect(from).rawQuery == "" <==> from == "/"
    ensures from != "/" ==> ConnString.QueryUnescape(LoginRedirect(from).rawQuery[9..]) == Some(from)
  {
    if from != "/" {
      var r := LoginRedirect(from);
      assert r.rawQuery[9..] == ConnString.QueryEscape(from);
      ConnString.EscapeRoundTrip(from);
    }
  }

  /** A row of user_session (`model.UserSession`). */
  datatype UserSessionRow = UserSessionRow(sessionID: String, userID: int, timestampUtc: Time) {
    /** `IsZero`: no user or no session id, as a lookup that found nothing leaves it. */
    predicate IsZero() { userID == 0 || |sessionID| == 0 }
  }

  /** The two lookups a session load makes: a user_session row by session
      id and a user by id, each an error or a possibly zero row. */
  datatype Lookups = Lookups(sessions: String -> Result<UserSessionRow, Error>,
                             users: int -> Result<User, Error>)

  /** `FetchSession`: an error from either lookup is passed on; a zero
      session row or a zero user is a signed-out visitor (nil); otherwise a
      new session with the row's user id and time, the requested id, and the
      user stored on it. */
  function FetchSession(sessionID: String, db: Lookups): (r: Result<Option<Session>, Error>)
    ensures db.sessions(sessionID).Err? ==> r == Err(db.sessions(sessionID).error)
    ensures db.sessions(sessionID).Ok? && db.sessions(sessionID).value.IsZero() ==> r == Ok(None)
    ensures r.Ok? && r.value.Some? ==>
      var row := db.sessions(sessionID).value;
      db.sessions(sessionID).Ok? && !row.IsZero()
      && db.users(row.userID).Ok? && !db.users(row.userID).value.IsZero()
      && r.value.value.sessionID == sessionID && r.value.value.userID == row.userID
      && r.value.value.createdUtc == row.timestampUtc
      && GetUser(r.value) == Some(db.users(row.userID).value)
  {
    match db.sessions(sessionID)
    case Err(e) => Err(e)
    case Ok(row) =>
      if row.IsZero() then Ok(None)
      else
        match db.users(row.userID)
        case Err(e) => Err(e)
        case Ok(user) =>
          if user.IsZero() then Ok(None)
          else
            var s := SetUser(Session(row.userID, sessionID, row.timestampUtc, None), Some(user));
            SetThenGetUser(Session(row.userID, sessionID, row.timestampUtc, None), Some(user));
            Ok(Some(s))
  }

  /** `PersistSession` with `CreateIfNotExistsInTx`: the row of the session
      is inserted unless a row with its id exists. */
  function PersistSession(table: map<String, UserSessionRow>, s: Session): (r: map<String, UserSessionRow>)
    ensures s.sessionID in r
    ensures s.sessionID !in table ==> r[s.sessionID] == UserSessionRow(s.sessionID, s.userID, s.createdUtc)
    ensures forall id :: id in table ==> id in r && r[id] == table[id]
    ensures forall id :: id in r && id != s.sessionID ==> id in table
  {
    if s.sessionID in table then table
    else table[s.sessionID := UserSessionRow(s.sessionID, s.userID, s.createdUtc)]
  }

  /** Looking rows up in a table by id; a missing id reads as the zero row. */
  function TableLookup(table: map<String, UserSessionRow>): String -> Result<UserSessionRow, Error> {
    id => if id in table then Ok(table[id]) else Ok(UserSessionRow("", 0, 0))
  }

  /** A session persisted under a new id fetches back with its ids, its
      creation time and its user, as long as the user exists. */
  lemma PersistThenFetch(table: map<String, UserSessionRow>, s: Session, users: int -> Result<User, Error>)
    requires s.sessionID !in table && |s.sessionID| > 0 && s.userID != 0
    requires users(s.userID).Ok? && !users(s.userID).value.IsZero()
    ensures var r := FetchSession(s.sessionID, Lookups(TableLookup(PersistSession(table, s)), users));
      r.Ok? && r.value.Some? && r.value.value.sessionID == s.sessionID
      && r.value.value.userID == s.userID && r.value.value.createdUtc == s.createdUtc
      && GetUser(r.value) == Some(users(s.userID).value)
  {
  }

  /** `parseInt` and `parseInt64`: `strconv.Atoi` or `strconv.ParseInt` with
      the error dropped.  Malformed text gives 0; a value out of the 64-bit
      range gives the bound of its sign. */
  function ParseIntLenient(s: String): (r: int)
    ensures Decimal.IsInt64(r)
    ensures Decimal.ParseDecimal(s).None? ==> r == 0
    ensures Decimal.ParseDecimal(s).Some? && Decimal.IsInt64(Decimal.ParseDecimal(s).value) ==>
      r == Decimal.ParseDecimal(s).value
  {
    Decimal.ParseInt64(s).value
  }

  /** Every 64-bit integer's decimal text parses back to it. */
  lemma ParseIntLenientReadsFormat(n: int)
    requires Decimal.IsInt64(n)
    ensures ParseIntLenient(Decimal.FormatInt(n)) == n
  {
    Decimal.ParseInt64FormatRoundTrip(n);
  }
}
