/** The Postgres connection string spiffy builds from a connection's
    settings, with the query escaping of Go's `net/url` that it applies to
    the user name, the password and the SSL mode. */
module ConnString {
  import opened Wrappers
  import opened GoStrings

  // ---------------------------------------------------------------------
  // Query escaping
  // ---------------------------------------------------------------------

  /** The characters `url.QueryEscape` keeps as they are. */
  predicate Unreserved(c: char) {
    IsAsciiLetter(c) || IsAsciiDigit(c) || c == '-' || c == '_' || c == '.' || c == '~'
  }

  /** The upper-case hexadecimal digit of `n`. */
  function HexDigit(n: nat): (c: char)
    requires n < 16
    ensures IsAsciiDigit(c) || 'A' <= c <= 'F'
  {
    if n < 10 then ('0' as int + n) as char else ('A' as int + n - 10) as char
  }

  /** The value of a hexadecimal digit of either case, None for any other character. */
  function HexValue(c: char): (r: Option<nat>)
    ensures r.Some? ==> r.value < 16
  {
    if '0' <= c <= '9' then Some(c as int - '0' as int)
    else if 'a' <= c <= 'f' then Some(c as int - 'a' as int + 10)
    else if 'A' <= c <= 'F' then Some(c as int - 'A' as int + 10)
    else None
  }

  /** Reading a digit back gives its value. */
  lemma HexRoundTrip(n: nat)
    requires n < 16
    ensures HexValue(HexDigit(n)) == Some(n)
  {
  }

  /** What an escaped string is made of: unreserved characters, '+' for a
      space and '%' with hexadecimal digits. */
  predicate EscapedChar(c: char) {
    Unreserved(c) || c == '+' || c == '%'
  }

  /** One byte: itself when unreserved, '+' for a space, "%XY" otherwise. */
  function EscapeByte(c: char): (r: String)
    requires c as int < 256
    ensures forall i :: 0 <= i < |r| ==> EscapedChar(r[i])
  {
    if Unreserved(c) then [c]
    else if c == ' ' then ['+']
    else ['%', HexDigit(c as int / 16), HexDigit(c as int % 16)]
  }

  /** `url.QueryEscape`. */
  function QueryEscape(s: ByteString): (r: String)
    ensures forall i :: 0 <= i < |r| ==> EscapedChar(r[i])
    decreases |s|
  {
    if |s| == 0 then []
    else
      var head := EscapeByte(s[0]);
      var tail := QueryEscape(s[1..]);
      assert forall i :: |head| <= i < |head + tail| ==> (head + tail)[i] == tail[i - |head|];
      head + tail
  }

  /** `url.QueryUnescape`: '+' is a space, '%' must be followed by two
      hexadecimal digits; a malformed escape is an error. */
  function QueryUnescape(s: String): (r: Option<String>)
    decreases |s|
  {
    if |s| == 0 then Some([])
    else if s[0] == '%' then
      if |s| < 3 || HexValue(s[1]).None? || HexValue(s[2]).None? then None
      else
        match QueryUnescape(s[3..])
        case None => None
        case Some(rest) => Some([(HexValue(s[1]).value * 16 + HexValue(s[2]).value) as char] + rest)
    else
      match QueryUnescape(s[1..])
      case None => None
      case Some(rest) => Some([if s[0] == '+' then ' ' else s[0]] + rest)
  }

  /** Unescaping one escaped byte and then the rest. */
  lemma UnescapeByte(c: char, t: String)
    requires c as int < 256
    ensures QueryUnescape(EscapeByte(c) + t)
      == match QueryUnescape(t) case None => None case Some(rest) => Some([c] + rest)
  {
    var e := EscapeByte(c) + t;
    if Unreserved(c) {
      assert e[0] == c && e[1..] == t;
    } else if c == ' ' {
      assert e[0] == '+' && e[1..] == t;
    } else {
      HexRoundTrip(c as int / 16);
      HexRoundTrip(c as int % 16);
      assert e[0] == '%' && e[1] == HexDigit(c as int / 16) && e[2] == HexDigit(c as int % 16);
      assert e[3..] == t;
    }
  }

  /** Escaping and unescaping gives the string back. */
  lemma {:induction false} EscapeRoundTrip(s: ByteString)
    ensures QueryUnescape(QueryEscape(s)) == Some(s)
    decreases |s|
  {
    if |s| > 0 {
      EscapeRoundTrip(s[1..]);
      UnescapeByte(s[0], QueryEscape(s[1..]));
      assert [s[0]] + s[1..] == s;
    }
  }

  /** None of the connection string's separators survives escaping. */
  lemma EscapedHasNoSeparators(s: ByteString)
    ensures ':' !in QueryEscape(s) && '@' !in QueryEscape(s) && '/' !in QueryEscape(s) && '?' !in QueryEscape(s)
  {
    var r := QueryEscape(s);
    forall i | 0 <= i < |r| ensures r[i] != ':' && r[i] != '@' && r[i] != '/' && r[i] != '?' {
      assert EscapedChar(r[i]);
    }
  }

  // ---------------------------------------------------------------------
  // The connection string
  // ---------------------------------------------------------------------

  /** The settings of a `DbConnection` that the connection string uses. */
  datatype DbConnection = DbConnection(
    dsn: String,
    host: String,
    port: String,
    database: String,
    username: ByteString,
    password: ByteString,
    sslMode: ByteString)

  datatype ConnError = DatabaseRequired

  const Scheme: String := "postgres://"
  const SslModeKey: String := "sslmode="
  const DefaultSslMode: String := "disable"

  /** The escaped user name, and the escaped password after a ':' when one is set. */
  function Credentials(c: DbConnection): String {
    if c.password == [] then QueryEscape(c.username)
    else QueryEscape(c.username) + ([':'] + QueryEscape(c.password))
  }

  /** "user:password@", "user@" or nothing. */
  function UserInfo(c: DbConnection): String {
    if c.username == [] then [] else Credentials(c) + ['@']
  }

  /** ":port" when a port is set. */
  function PortSegment(c: DbConnection): String {
    if |c.port| > 0 then [':'] + c.port else []
  }

  /** The escaped SSL mode, "disable" when none is set. */
  function SslModeValue(c: DbConnection): String {
    if |c.sslMode| > 0 then QueryEscape(c.sslMode) else DefaultSslMode
  }

  /** `CreatePostgresConnectionString`. */
  function ConnectionString(c: DbConnection): (r: Result<String, ConnError>)
    ensures |c.dsn| != 0 ==> r == Ok(c.dsn)
    ensures r.Err? <==> |c.dsn| == 0 && |c.database| == 0
  {
    if |c.dsn| != 0 then Ok(c.dsn)
    else if |c.database| == 0 then Err(DatabaseRequired)
    else Ok(Scheme + (UserInfo(c) + (c.host + (PortSegment(c) + (['/'] + (c.database + (['?'] + (SslModeKey + SslModeValue(c)))))))))
  }

  // ---------------------------------------------------------------------
  // Reading a connection string back
  // ---------------------------------------------------------------------

  /** What a connection string says. */
  datatype Settings = Settings(
    username: String,
    password: String,
    host: String,
    port: String,
    database: String,
    sslMode: String)

  /** The text before and after the first `c`, when there is one. */
  function SplitAt(s: String, c: char): (r: Option<(String, String)>)
    ensures r.Some? ==> c !in r.value.0 && s == r.value.0 + [c] + r.value.1
    ensures r.None? <==> c !in s
  {
    if c in s then
      var i := FirstIndex(s, c);
      assert s == s[..i] + [c] + s[i + 1..];
      Some((s[..i], s[i + 1..]))
    else None
  }

  lemma SplitAtFirst(p: String, c: char, t: String)
    requires c !in p
    ensures SplitAt(p + ([c] + t), c) == Some((p, t))
  {
    assert p + ([c] + t) == p + [c] + t;
    FirstIndexAfter(p, c, t);
    assert (p + [c] + t)[..|p|] == p;
  }

  /** The user name and password of "user:password", "user" or "". */
  function ReadUserInfo(info: Option<String>): Option<(String, String)> {
    match info
    case None => Some(([], []))
    case Some(text) =>
      match SplitAt(text, ':')
      case Some((user, password)) =>
        (match (QueryUnescape(user), QueryUnescape(password))
         case (Some(u), Some(p)) => Some((u, p))
         case _ => None)
      case None =>
        (match QueryUnescape(text)
         case Some(u) => Some((u, []))
         case None => None)
  }

  /** The user name, password, host and port of "user:password@host:port",
      each part but the host optional. */
  function ReadAuthority(authority: String): Option<(String, String, String, String)> {
    var (info, hostPort) :=
      match SplitAt(authority, '@')
      case Some((info, hostPort)) => (Some(info), hostPort)
      case None => (None, authority);
    var (host, port) :=
      match SplitAt(hostPort, ':')
      case Some((host, port)) => (host, port)
      case None => (hostPort, []);
    match ReadUserInfo(info)
    case Some((user, password)) => Some((user, password, host, port))
    case None => None
  }

  /** The database and SSL mode of "database?sslmode=mode". */
  function ReadPath(path: String): Option<(String, String)> {
    match SplitAt(path, '?')
    case Some((database, query)) =>
      if |query| < |SslModeKey| || query[..|SslModeKey|] != SslModeKey then None
      else
        (match QueryUnescape(query[|SslModeKey|..])
         case Some(mode) => Some((database, mode))
         case None => None)
    case None => None
  }

  /** A connection string read as a URL whose user information, port and
      SSL mode may be absent. */
  function ReadConnectionString(s: String): Option<Settings> {
    if |s| < |Scheme| || s[..|Scheme|] != Scheme then None
    else
      match SplitAt(s[|Scheme|..], '/')
      case None => None
      case Some((authority, path)) =>
        match (ReadAuthority(authority), ReadPath(path))
        case (Some((user, password, host, port)), Some((database, mode))) =>
          Some(Settings(user, password, host, port, database, mode))
        case _ => None
  }

  /** A host, port or database text that none of the separators before it
      can cut short. */
  predicate Plain(s: String, separators: set<char>) {
    forall i :: 0 <= i < |s| ==> s[i] !in separators
  }

  /** The settings the connection string is meant to carry: the password
      only with a user name, and "disable" when no SSL mode is set. */
  function Intended(c: DbConnection): Settings {
    Settings(c.username, if c.username == [] then [] else c.password, c.host, c.port, c.database,
             if |c.sslMode| > 0 then c.sslMode else DefaultSslMode)
  }

  /** An unreserved text other than '+' and '%' unescapes to itself. */
  lemma {:induction false} UnescapePlain(s: String)
    requires forall i :: 0 <= i < |s| ==> Unreserved(s[i])
    ensures QueryUnescape(s) == Some(s)
    decreases |s|
  {
    if |s| > 0 {
      UnescapePlain(s[1..]);
      assert [s[0]] + s[1..] == s;
    }
  }

  lemma DefaultSslModeReads(mode: String)
    requires mode == DefaultSslMode
    ensures QueryUnescape(mode) == Some(mode)
  {
    UnescapePlain(mode);
  }

  /** The SSL mode reads back as the one set, or "disable". */
  lemma SslModeReads(c: DbConnection)
    ensures QueryUnescape(SslModeValue(c)) == Some(Intended(c).sslMode)
  {
    if |c.sslMode| > 0 {
      EscapeRoundTrip(c.sslMode);
    } else {
      DefaultSslModeReads(DefaultSslMode);
    }
  }

  /** The path after the first '/' reads as the database and the SSL mode. */
  lemma PathReads(c: DbConnection)
    requires Plain(c.database, {'?'})
    ensures ReadPath(c.database + (['?'] + (SslModeKey + SslModeValue(c)))) == Some((c.database, Intended(c).sslMode))
  {
    assert '?' !in c.database by {
      forall i | 0 <= i < |c.database| ensures c.database[i] != '?' { assert c.database[i] !in {'?'}; }
    }
    var query := SslModeKey + SslModeValue(c);
    SplitAtFirst(c.database, '?', query);
    assert query[..|SslModeKey|] == SslModeKey && query[|SslModeKey|..] == SslModeValue(c);
    SslModeReads(c);
  }

  /** The host and the port read back from the text after the user information. */
  lemma HostPortReads(c: DbConnection)
    requires Plain(c.host, {'@', ':', '/'})
    ensures var hostPort := c.host + PortSegment(c);
      match SplitAt(hostPort, ':')
      case Some((host, port)) => host == c.host && port == c.port && |c.port| > 0
      case None => hostPort == c.host && |c.port| == 0
  {
    assert ':' !in c.host by {
      forall i | 0 <= i < |c.host| ensures c.host[i] != ':' { assert c.host[i] !in {'@', ':', '/'}; }
    }
    if |c.port| > 0 {
      SplitAtFirst(c.host, ':', c.port);
    } else {
      assert c.host + PortSegment(c) == c.host;
    }
  }

  /** The credentials read back as the user name and the password. */
  lemma CredentialsRead(c: DbConnection)
    ensures '@' !in Credentials(c) && ReadUserInfo(Some(Credentials(c))) == Some((c.username, c.password))
  {
    EscapedHasNoSeparators(c.username);
    EscapedHasNoSeparators(c.password);
    EscapeRoundTrip(c.username);
    EscapeRoundTrip(c.password);
    if c.password == [] {
      assert SplitAt(QueryEscape(c.username), ':') == None;
    } else {
      SplitAtFirst(QueryEscape(c.username), ':', QueryEscape(c.password));
    }
  }

  /** The text after the scheme splits at its first '/' into the authority and the path. */
  lemma AuthoritySplits(c: DbConnection)
    requires Plain(c.host, {'@', ':', '/'}) && Plain(c.port, {'@', '/'})
    ensures var authority := UserInfo(c) + (c.host + PortSegment(c));
      var path := c.database + (['?'] + (SslModeKey + SslModeValue(c)));
      SplitAt(UserInfo(c) + (c.host + (PortSegment(c) + (['/'] + path))), '/') == Some((authority, path))
  {
    var path := c.database + (['?'] + (SslModeKey + SslModeValue(c)));
    var authority := UserInfo(c) + (c.host + PortSegment(c));
    EscapedHasNoSeparators(c.username);
    EscapedHasNoSeparators(c.password);
    assert '/' !in authority by {
      forall i | 0 <= i < |c.host| ensures c.host[i] != '/' { assert c.host[i] !in {'@', ':', '/'}; }
      forall i | 0 <= i < |c.port| ensures c.port[i] != '/' { assert c.port[i] !in {'@', '/'}; }
    }
    assert UserInfo(c) + (c.host + (PortSegment(c) + (['/'] + path))) == authority + (['/'] + path);
    SplitAtFirst(authority, '/', path);
  }

  /** The authority reads back as the user name and password when a user
      name is set, the host, and the port when set. */
  lemma AuthorityReads(c: DbConnection)
    requires Plain(c.host, {'@', ':', '/'}) && Plain(c.port, {'@', '/'})
    ensures var i := Intended(c);
      ReadAuthority(UserInfo(c) + (c.host + PortSegment(c))) == Some((i.username, i.password, c.host, c.port))
  {
    var hostPort := c.host + PortSegment(c);
    assert '@' !in hostPort by {
      forall i | 0 <= i < |c.host| ensures c.host[i] != '@' { assert c.host[i] !in {'@', ':', '/'}; }
      forall i | 0 <= i < |c.port| ensures c.port[i] != '@' { assert c.port[i] !in {'@', '/'}; }
    }
    HostPortReads(c);
    if c.username != [] {
      CredentialsRead(c);
      assert UserInfo(c) + hostPort == Credentials(c) + (['@'] + hostPort);
      SplitAtFirst(Credentials(c), '@', hostPort);
    } else {
      assert UserInfo(c) + hostPort == hostPort;
    }
  }

  /** Without a DSN, the connection string reads back as the settings it is
      meant to carry: the user name and password when set, the host, the
      port when set, the database and the SSL mode or "disable". */
  lemma ConnectionStringReadsBack(c: DbConnection)
    requires |c.dsn| == 0 && |c.database| > 0
    requires Plain(c.host, {'@', ':', '/'}) && Plain(c.port, {'@', '/'}) && Plain(c.database, {'?'})
    ensures ReadConnectionString(ConnectionString(c).value) == Some(Intended(c))
  {
    var path := c.database + (['?'] + (SslModeKey + SslModeValue(c)));
    var rest := UserInfo(c) + (c.host + (PortSegment(c) + (['/'] + path)));
    var s := ConnectionString(c).value;
    assert s[..|Scheme|] == Scheme && s[|Scheme|..] == rest;
    AuthoritySplits(c);
    AuthorityReads(c);
    PathReads(c);
  }
}
