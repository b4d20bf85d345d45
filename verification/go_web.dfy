/** The routing core of go-web's `App` and a few `Config` getters.  A route
    table maps each HTTP method to the set of paths registered for it; the
    radix tree that go-web builds per method, with its `:name` and `*name`
    parameters, is not part of this model, so a path is routed when it was
    registered as it is.  Handlers, middleware and header values are
    opaque names. */
module GoWeb {
  import opened Wrappers
  import opened GoStrings
  import Decimal
  import StringSets

  type Routes = map<String, set<String>>
  type Headers = map<String, String>

  const MethodGet: String := "GET"
  const MethodConnect: String := "CONNECT"
  const MethodOptions: String := "OPTIONS"
  const Slash: String := "/"
  const FilepathParam: String := "*filepath"
  const AllowSeparator: String := ", "
  const HstsSeparator: String := "; "

  /** Appending a suffix leaves the string a prefix and the suffix a suffix. */
  lemma AppendEnds(s: String, t: String)
    ensures HasPrefix(s + t, s) && HasSuffix(s + t, t)
  {
    assert (s + t)[..|s|] == s;
    assert (s + t)[|s + t| - |t|..] == t;
  }

  // ---------------------------------------------------------------------
  // Registering routes
  // ---------------------------------------------------------------------

  /** The ways `Handle` refuses a path (go-web panics): an empty path, one
      without a leading '/', and one already registered for the method (the
      route tree's `addRoute` panics on a second handle for a path). */
  datatype RouteError = EmptyPath | NoLeadingSlash | DuplicatePath

  predicate Routable(routes: Routes, verb: String, path: String) {
    verb in routes && path in routes[verb]
  }

  /** `Handle`: a path must be non-empty, start with '/' and be new for its
      method; it is then added to its method's routes, creating them when
      the method is new. */
  function Handle(routes: Routes, verb: String, path: String): (r: Result<Routes, RouteError>)
    ensures r.Err? <==> |path| == 0 || path[0] != '/' || Routable(routes, verb, path)
    ensures |path| == 0 ==> r == Err(EmptyPath)
    ensures r == Err(DuplicatePath) <==> 0 < |path| && path[0] == '/' && Routable(routes, verb, path)
    ensures r.Ok? ==> Routable(r.value, verb, path)
    ensures r.Ok? ==> forall p :: p != path ==> (Routable(r.value, verb, p) <==> Routable(routes, verb, p))
    ensures r.Ok? ==> forall m :: m != verb ==> (m in r.value <==> m in routes) && (m in routes ==> r.value[m] == routes[m])
  {
    if |path| == 0 then Err(EmptyPath)
    else if path[0] != '/' then Err(NoLeadingSlash)
    else if Routable(routes, verb, path) then Err(DuplicatePath)
    else
      var root := if verb in routes then routes[verb] else {};
      Ok(routes[verb := root + {path}])
  }

  /** Registering the same route twice is refused, and two different
      registrations that each succeed give the same table in either order. */
  lemma HandleCommutes(routes: Routes, m1: String, p1: String, m2: String, p2: String)
    requires Handle(routes, m1, p1).Ok? && Handle(routes, m2, p2).Ok?
    ensures Handle(Handle(routes, m1, p1).value, m1, p1) == Err(DuplicatePath)
    ensures (m1, p1) != (m2, p2) ==>
      Handle(Handle(routes, m1, p1).value, m2, p2).Ok?
      && Handle(Handle(routes, m1, p1).value, m2, p2) == Handle(Handle(routes, m2, p2).value, m1, p1)
  {
    if (m1, p1) != (m2, p2) {
      var r1 := Handle(routes, m1, p1).value;
      var r2 := Handle(routes, m2, p2).value;
      var a := Handle(r1, m2, p2).value;
      var b := Handle(r2, m1, p1).value;
      forall m | m in a
        ensures m in b && a[m] == b[m]
      {
        var root := if m in routes then routes[m] else {};
        if m == m1 && m == m2 {
          assert a[m] == root + {p1} + {p2} == b[m];
        }
      }
      assert a.Keys == b.Keys;
      assert a == b;
    }
  }

  /** `createStaticMountRoute`: a static file route ends in the `*filepath`
      wildcard, with exactly one '/' before it when it is added. */
  function StaticMountRoute(route: String): (r: String)
    ensures HasPrefix(r, route) && HasSuffix(r, FilepathParam)
  {
    if HasSuffix(route, FilepathParam) then
      assert route[..|route|] == route;
      route
    else if HasSuffix(route, Slash) then
      AppendEnds(route, FilepathParam);
      route + FilepathParam
    else
      AppendEnds(route, Slash + FilepathParam);
      AppendEnds(Slash, FilepathParam);
      assert (route + (Slash + FilepathParam))[..|route|] == route;
      route + (Slash + FilepathParam)
  }

  /** Mounting is idempotent; a route already ending in the wildcard is kept,
      and otherwise the route followed by a '/' and `*filepath` is produced, sharing a
      trailing '/' the route already has. */
  lemma StaticMountRouteShape(route: String)
    ensures StaticMountRoute(StaticMountRoute(route)) == StaticMountRoute(route)
    ensures HasSuffix(route, FilepathParam) ==> StaticMountRoute(route) == route
    ensures !HasSuffix(route, FilepathParam) ==>
      (HasSuffix(route, Slash) ==> StaticMountRoute(route) == route + FilepathParam)
      && (!HasSuffix(route, Slash) ==> StaticMountRoute(route) == route + Slash + FilepathParam)
  {
    var r := StaticMountRoute(route);
    assert HasSuffix(r, FilepathParam);
  }

  // ---------------------------------------------------------------------
  // Middleware
  // ---------------------------------------------------------------------

  /** An action as go-web hands it to a route: the action alone, or nested
      inside middleware, the first of the list outermost. */
  datatype Pipeline = Bare(action: String) | Nested(action: String, middleware: seq<String>)

  /** The array `middlewarePipeline` fills from its end: first the app's
      defaults, last to first, then the route's own middleware. */
  method FinalMiddleware(middleware: seq<String>, defaults: seq<String>) returns (r: seq<String>)
    ensures |r| == |middleware| + |defaults|
    ensures r[..|middleware|] == middleware && r[|middleware|..] == defaults
  {
    var n := |middleware| + |defaults|;
    var a := new String[n];
    var cursor := n - 1;
    var i := |defaults| - 1;
    while i >= 0
      invariant -1 <= i < |defaults|
      invariant cursor == |middleware| + i
      invariant forall k :: |middleware| + i < k < n ==> a[k] == defaults[k - |middleware|]
    {
      a[cursor] := defaults[i];
      cursor := cursor - 1;
      i := i - 1;
    }
    i := |middleware| - 1;
    while i >= 0
      invariant -1 <= i < |middleware|
      invariant cursor == i
      invariant forall k :: i < k < |middleware| ==> a[k] == middleware[k]
      invariant forall k :: |middleware| <= k < n ==> a[k] == defaults[k - |middleware|]
    {
      a[cursor] := middleware[i];
      cursor := cursor - 1;
      i := i - 1;
    }
    r := a[..];
  }

  /** `middlewarePipeline`: with no middleware at all the action is used as
      it is; otherwise the route's middleware wraps the app's defaults, which
      wrap the action. */
  method MiddlewarePipeline(action: String, middleware: seq<String>, defaults: seq<String>) returns (r: Pipeline)
    ensures r.action == action
    ensures r.Bare? <==> |middleware| == 0 && |defaults| == 0
    ensures r.Nested? ==> r.middleware == middleware + defaults
  {
    if |middleware| == 0 && |defaults| == 0 {
      return Bare(action);
    }
    var final := FinalMiddleware(middleware, defaults);
    assert final == final[..|middleware|] + final[|middleware|..];
    r := Nested(action, final);
  }

  // ---------------------------------------------------------------------
  // Serving a request
  // ---------------------------------------------------------------------

  /** The path the trailing-slash redirect sends a client to: without its
      trailing '/', or with one added. */
  function ToggleTrailingSlash(path: String): (r: String)
    ensures |path| > 1 && path[|path| - 1] == '/' ==> r + Slash == path
    ensures !(|path| > 1 && path[|path| - 1] == '/') ==> r == path + Slash && HasSuffix(r, Slash)
  {
    if |path| > 1 && path[|path| - 1] == '/' then
      assert path == path[..|path| - 1] + Slash;
      path[..|path| - 1]
    else
      AppendEnds(path, Slash);
      path + Slash
  }

  /** Toggling twice comes back to the path, for every path longer than "/"
      that does not end in two slashes. */
  lemma ToggleTwice(path: String)
    requires |path| > 1
    requires !HasSuffix(path, "//")
    ensures ToggleTrailingSlash(ToggleTrailingSlash(path)) == path
  {
    if path[|path| - 1] == '/' {
      var t := ToggleTrailingSlash(path);
      assert path == t + Slash;
      assert |t| > 0;
    }
  }

  /** The status of the trailing-slash redirect: 301 for GET, 307 for every other method. */
  function RedirectCode(verb: String): (code: int)
    ensures code == 301 || code == 307
  {
    if verb == MethodGet then 301 else 307
  }

  /** A redirect keeps the method when it can: only a GET may be turned
      into a permanent (301) redirect. */
  lemma RedirectCodeIff(verb: String)
    ensures RedirectCode(verb) == 301 <==> verb == MethodGet
    ensures RedirectCode(verb) == 307 <==> verb != MethodGet
  {
  }

  /** What `ServeHTTP` does with a request. */
  datatype Outcome =
    | Routed
    | Redirect(code: int, location: String)
    | OptionsAllowed(allow: String)
    | MethodNotAllowed(allow: String)
    | NotFound

  /** The switches of the app that shape the dispatch. */
  datatype Switches = Switches(redirectTrailingSlash: bool, handleOptions: bool, handleMethodNotAllowed: bool)

  /** `getValue`'s trailing-slash recommendation: the path with its
      trailing '/' toggled is registered. */
  predicate SlashRecommended(routes: Routes, verb: String, path: String) {
    Routable(routes, verb, ToggleTrailingSlash(path))
  }

  /** `ServeHTTP`: a registered route serves; otherwise, for a method with
      routes, not CONNECT and not "/", the trailing-slash redirect when it
      applies; then the OPTIONS answer or the 405 when enabled and some other
      method would route; and otherwise 404.  `order` is Go's iteration
      order over the methods. */
  function Serve(routes: Routes, sw: Switches, verb: String, path: String, order: seq<String>): (r: Outcome)
    requires StringSets.IterationOrder(order, routes.Keys)
    ensures r.Routed? <==> Routable(routes, verb, path)
    ensures r.Redirect? ==> Routable(routes, verb, r.location) && r.code == RedirectCode(verb)
    ensures r.Redirect? ==> sw.redirectTrailingSlash && verb != MethodConnect && path != Slash
    ensures r.OptionsAllowed? ==> verb == MethodOptions && sw.handleOptions && |r.allow| > 0
    ensures r.MethodNotAllowed? ==> verb != MethodOptions && sw.handleMethodNotAllowed && |r.allow| > 0
  {
    if Routable(routes, verb, path) then Routed
    else if verb in routes && verb != MethodConnect && path != Slash
      && SlashRecommended(routes, verb, path) && sw.redirectTrailingSlash then
      Redirect(RedirectCode(verb), ToggleTrailingSlash(path))
    else
      var allow := Allowed(routes, path, verb, order);
      if verb == MethodOptions then
        if sw.handleOptions && |allow| > 0 then OptionsAllowed(allow) else NotFound
      else
        if sw.handleMethodNotAllowed && |allow| > 0 then MethodNotAllowed(allow) else NotFound
  }

  // ---------------------------------------------------------------------
  // The Allow header
  // ---------------------------------------------------------------------

  /** One step of `allowed`'s accumulation. */
  function AddAllowed(allow: String, verb: String): String {
    if |allow| == 0 then verb else allow + AllowSeparator + verb
  }

  /** The accumulation over a list of methods, left to right. */
  function Accumulate(allow: String, methods: seq<String>): String
    decreases |methods|
  {
    if |methods| == 0 then allow else Accumulate(AddAllowed(allow, methods[0]), methods[1..])
  }

  /** The methods `allowed` lists, in Go's order: every method but OPTIONS
      for the server-wide path "*"; otherwise those other than the requested
      one and OPTIONS that route the path. */
  function AllowedMethods(routes: Routes, path: String, reqMethod: String, order: seq<String>): (r: seq<String>)
    decreases |order|
  {
    if |order| == 0 then []
    else
      var m := order[0];
      var keep := if path == "*" then m != MethodOptions
                  else m != reqMethod && m != MethodOptions && Routable(routes, m, path);
      (if keep then [m] else []) + AllowedMethods(routes, path, reqMethod, order[1..])
  }

  /** `allowed`: the methods accumulated with ", ", and for a path other
      than "*" followed by ", OPTIONS" when the list is not empty. */
  function Allowed(routes: Routes, path: String, reqMethod: String, order: seq<String>): (r: String)
    requires StringSets.IterationOrder(order, routes.Keys)
  {
    var allow := Accumulate([], AllowedMethods(routes, path, reqMethod, order));
    if path != "*" && |allow| > 0 then allow + AllowSeparator + MethodOptions else allow
  }

  /** The listed methods are exactly the ones described, each once. */
  lemma {:induction false} AllowedMethodsIff(routes: Routes, path: String, reqMethod: String, order: seq<String>, m: String)
    requires forall i, j :: 0 <= i < j < |order| ==> order[i] != order[j]
    ensures m in AllowedMethods(routes, path, reqMethod, order) <==>
      m in order && m != MethodOptions && (path == "*" || (m != reqMethod && Routable(routes, m, path)))
    ensures forall i, j :: 0 <= i < j < |AllowedMethods(routes, path, reqMethod, order)| ==>
      AllowedMethods(routes, path, reqMethod, order)[i] != AllowedMethods(routes, path, reqMethod, order)[j]
    decreases |order|
  {
    if |order| > 0 {
      var rest := order[1..];
      assert forall i, j :: 0 <= i < j < |rest| ==> rest[i] != rest[j] by {
        forall i, j | 0 <= i < j < |rest| ensures rest[i] != rest[j] {
          assert rest[i] == order[i + 1] && rest[j] == order[j + 1];
        }
      }
      AllowedMethodsIff(routes, path, reqMethod, rest, m);
      AllowedMethodsIff(routes, path, reqMethod, rest, order[0]);
      assert order[0] !in rest by {
        forall i | 0 <= i < |rest| ensures rest[i] != order[0] { assert rest[i] == order[i + 1]; }
      }
      assert order == [order[0]] + rest;
    }
  }

  /** The comma-separated tail that follows a non-empty accumulated text. */
  function JoinTail(methods: seq<String>): String {
    if |methods| == 0 then [] else AllowSeparator + Join(methods, AllowSeparator)
  }

  /** One method more: the step of `AccumulateAfter`, given the rest. */
  lemma AccumulateStep(allow: String, methods: seq<String>)
    requires |allow| > 0 && |methods| > 0
    requires var next := allow + (AllowSeparator + methods[0]);
      Accumulate(next, methods[1..]) == next + JoinTail(methods[1..])
    ensures Accumulate(allow, methods) == allow + JoinTail(methods)
  {
    ConcatAssoc(allow, AllowSeparator, methods[0]);
    JoinTailCons(methods);
    ConcatAssoc(allow, AllowSeparator + methods[0], JoinTail(methods[1..]));
  }

  /** The joined tail of a list starts with its first method. */
  lemma JoinTailCons(methods: seq<String>)
    requires |methods| > 0
    ensures JoinTail(methods) == (AllowSeparator + methods[0]) + JoinTail(methods[1..])
  {
    if |methods| == 1 {
      assert JoinTail(methods[1..]) == [];
    } else {
      var sep, m, rest := AllowSeparator, methods[0], Join(methods[1..], AllowSeparator);
      assert Join(methods, sep) == m + sep + rest;
      ConcatRegroup(sep, m, sep, rest);
    }
  }

  lemma ConcatAssoc(a: String, b: String, c: String)
    ensures a + b + c == a + (b + c)
  {
  }

  lemma ConcatRegroup(a: String, b: String, c: String, d: String)
    ensures a + (b + c + d) == (a + b) + (c + d)
  {
    assert b + c + d == b + (c + d);
  }

  lemma {:induction false} AccumulateAfter(allow: String, methods: seq<String>)
    requires |allow| > 0
    ensures Accumulate(allow, methods) == allow + JoinTail(methods)
    decreases |methods|
  {
    if |methods| > 0 {
      AccumulateAfter(allow + (AllowSeparator + methods[0]), methods[1..]);
      AccumulateStep(allow, methods);
    }
  }

  /** With non-empty method names Go's accumulation is `strings.Join(_, ", ")`. */
  lemma AccumulateIsJoin(methods: seq<String>)
    requires forall i :: 0 <= i < |methods| ==> |methods[i]| > 0
    ensures Accumulate([], methods) == Join(methods, AllowSeparator)
  {
    if |methods| > 0 {
      AccumulateAfter(methods[0], methods[1..]);
    }
  }

  /** For a path other than "*" the header is the listed methods joined with
      ", " and then OPTIONS, or empty when no other method routes the path;
      for "*" it is the list alone. */
  lemma AllowedHeader(routes: Routes, path: String, reqMethod: String, order: seq<String>)
    requires StringSets.IterationOrder(order, routes.Keys)
    requires forall i :: 0 <= i < |order| ==> |order[i]| > 0
    ensures var ms := AllowedMethods(routes, path, reqMethod, order);
      Allowed(routes, path, reqMethod, order) ==
        if path == "*" || |ms| == 0 then Join(ms, AllowSeparator)
        else Join(ms + [MethodOptions], AllowSeparator)
  {
    var ms := AllowedMethods(routes, path, reqMethod, order);
    NonEmptyListed(routes, path, reqMethod, order);
    AccumulateIsJoin(ms);
    if path != "*" && |ms| > 0 {
      AccumulateIsJoin(ms + [MethodOptions]);
      AccumulateAfter(Accumulate([], ms), [MethodOptions]);
      AccumulateSplit([], ms, [MethodOptions]);
    }
  }

  lemma {:induction false} NonEmptyListed(routes: Routes, path: String, reqMethod: String, order: seq<String>)
    requires forall i :: 0 <= i < |order| ==> |order[i]| > 0
    ensures forall i :: 0 <= i < |AllowedMethods(routes, path, reqMethod, order)| ==> |AllowedMethods(routes, path, reqMethod, order)[i]| > 0
    ensures |AllowedMethods(routes, path, reqMethod, order)| > 0 ==> |Accumulate([], AllowedMethods(routes, path, reqMethod, order))| > 0
    decreases |order|
  {
    var ms := AllowedMethods(routes, path, reqMethod, order);
    if |order| > 0 {
      NonEmptyListed(routes, path, reqMethod, order[1..]);
    }
    if |ms| > 0 {
      AccumulateAfter(ms[0], ms[1..]);
    }
  }

  lemma {:induction false} AccumulateSplit(allow: String, a: seq<String>, b: seq<String>)
    ensures Accumulate(allow, a + b) == Accumulate(Accumulate(allow, a), b)
    decreases |a|
  {
    if |a| == 0 {
      assert a + b == b;
    } else {
      assert (a + b)[1..] == a[1..] + b;
      AccumulateSplit(AddAllowed(allow, a[0]), a[1..], b);
    }
  }

  /** OPTIONS and the requested method are never listed before the closing
      OPTIONS; the header is empty exactly when no method is listed. */
  lemma AllowedEmptyIff(routes: Routes, path: String, reqMethod: String, order: seq<String>)
    requires StringSets.IterationOrder(order, routes.Keys)
    requires forall i :: 0 <= i < |order| ==> |order[i]| > 0
    ensures |Allowed(routes, path, reqMethod, order)| == 0 <==>
      forall m :: m in routes ==> m == MethodOptions || (path != "*" && (m == reqMethod || !Routable(routes, m, path)))
  {
    var ms := AllowedMethods(routes, path, reqMethod, order);
    NonEmptyListed(routes, path, reqMethod, order);
    if |ms| == 0 {
      forall m | m in routes
        ensures m == MethodOptions || (path != "*" && (m == reqMethod || !Routable(routes, m, path)))
      {
        AllowedMethodsIff(routes, path, reqMethod, order, m);
      }
    } else {
      AllowedMethodsIff(routes, path, reqMethod, order, ms[0]);
    }
  }

  // ---------------------------------------------------------------------
  // Headers and state
  // ---------------------------------------------------------------------

  /** `WithDefaultHeader`: a nil map becomes an empty one, then the key is set. */
  function WithDefaultHeader(headers: Option<Headers>, key: String, value: String): (r: Headers)
    ensures key in r && r[key] == value
    ensures forall k :: k != key ==> (k in r <==> headers.Some? && k in headers.value)
    ensures forall k :: k != key && k in r ==> r[k] == headers.value[k]
  {
    var h := if headers.Some? then headers.value else map[];
    h[key := value]
  }

  /** The Strict-Transport-Security settings of an app. */
  datatype Hsts = Hsts(maxAgeSeconds: int, includeSubdomains: bool, preload: bool)

  /** The directive texts of go-web's constants; the max-age directive is
      `HSTSMaxAgeFormat` applied to the seconds. */
  datatype HstsTexts = HstsTexts(maxAge: int -> String, includeSubDomains: String, preload: String)

  /** `addHSTSHeader`'s parts: the max-age directive, then the optional ones. */
  function HstsParts(h: Hsts, t: HstsTexts): (parts: seq<String>)
  {
    [t.maxAge(h.maxAgeSeconds)]
      + (if h.includeSubdomains then [t.includeSubDomains] else [])
      + (if h.preload then [t.preload] else [])
  }

  function HstsHeader(h: Hsts, t: HstsTexts): (r: String)
  {
    Join(HstsParts(h, t), HstsSeparator)
  }

  /** The max-age directive always comes first, include-subdomains second when
      set and preload last when set, each at most once. */
  lemma HstsOrder(h: Hsts, t: HstsTexts)
    ensures var parts := HstsParts(h, t);
      |parts| == 1 + (if h.includeSubdomains then 1 else 0) + (if h.preload then 1 else 0)
      && parts[0] == t.maxAge(h.maxAgeSeconds)
      && (h.includeSubdomains ==> parts[1] == t.includeSubDomains)
      && (h.preload ==> parts[|parts| - 1] == t.preload)
    ensures !h.includeSubdomains && !h.preload ==> HstsHeader(h, t) == t.maxAge(h.maxAgeSeconds)
    ensures h.includeSubdomains && !h.preload ==>
      HstsHeader(h, t) == t.maxAge(h.maxAgeSeconds) + HstsSeparator + t.includeSubDomains
  {
    var parts := HstsParts(h, t);
    if h.includeSubdomains && !h.preload {
      assert parts[1..] == [t.includeSubDomains];
    }
  }

  /** `createCtx`'s state: a nil context state becomes empty, and the app's
      state is copied over it, the app's value winning. */
  function CreateCtxState<V>(ctxState: Option<map<String, V>>, appState: map<String, V>): (r: map<String, V>)
    ensures forall k :: k in r <==> (ctxState.Some? && k in ctxState.value) || k in appState
    ensures forall k :: k in appState ==> r[k] == appState[k]
    ensures forall k :: k !in appState && k in r ==> r[k] == ctxState.value[k]
  {
    var state := if ctxState.Some? then ctxState.value else map[];
    state + appState
  }

  // ---------------------------------------------------------------------
  // Config
  // ---------------------------------------------------------------------

  datatype Config = Config(bindAddr: String, port: int, baseURL: String, defaultHeaders: Headers, hasKeyPair: bool)

  /** `GetBindAddr`: the bind address, else ":" and the port when positive,
      else the first default, else go-web's default address. */
  function GetBindAddr(c: Config, defaults: seq<String>, defaultBindAddr: String): (r: String)
  {
    if |c.bindAddr| > 0 then c.bindAddr
    else if c.port > 0 then [':'] + Decimal.FormatInt(c.port)
    else if |defaults| > 0 then defaults[0]
    else defaultBindAddr
  }

  /** A configured bind address wins; without one a positive port is written
      so that the port reads back from the text after the ':'. */
  lemma BindAddrPort(c: Config, defaults: seq<String>, defaultBindAddr: String)
    ensures |c.bindAddr| > 0 ==> GetBindAddr(c, defaults, defaultBindAddr) == c.bindAddr
    ensures |c.bindAddr| == 0 && c.port > 0 ==>
      var r := GetBindAddr(c, defaults, defaultBindAddr);
      |r| > 1 && r[0] == ':' && Decimal.ParseDecimal(r[1..]) == Some(c.port)
    ensures |c.bindAddr| == 0 && c.port <= 0 ==>
      GetBindAddr(c, defaults, defaultBindAddr) == if |defaults| > 0 then defaults[0] else defaultBindAddr
  {
    if |c.bindAddr| == 0 && c.port > 0 {
      Decimal.ParseFormatRoundTrip(c.port);
      var r := GetBindAddr(c, defaults, defaultBindAddr);
      assert r[1..] == Decimal.FormatInt(c.port);
    }
  }

  /** The inherited header sets copied one after the other. */
  function MergeHeaders(inherited: seq<Headers>): (r: Headers)
    ensures forall k :: k in r <==> exists i :: 0 <= i < |inherited| && k in inherited[i]
    decreases |inherited|
  {
    if |inherited| == 0 then map[]
    else
      var init := inherited[..|inherited| - 1];
      MergeHeadersStep(inherited, init, MergeHeaders(init));
      MergeHeaders(init) + inherited[|inherited| - 1]
  }

  /** Copying one more set in: a header is then in the result exactly when
      it is in one of the sets. */
  lemma MergeHeadersStep(inherited: seq<Headers>, init: seq<Headers>, prev: Headers)
    requires |inherited| > 0 && init == inherited[..|inherited| - 1]
    requires forall k :: k in prev <==> exists i :: 0 <= i < |init| && k in init[i]
    ensures forall k :: k in prev || k in inherited[|inherited| - 1] <==> exists i :: 0 <= i < |inherited| && k in inherited[i]
  {
    forall k | k in prev || k in inherited[|inherited| - 1] ensures exists i :: 0 <= i < |inherited| && k in inherited[i] {
      if k !in inherited[|inherited| - 1] {
        var i :| 0 <= i < |init| && k in init[i];
        assert inherited[i] == init[i];
      }
    }
    assert forall i :: 0 <= i < |init| ==> init[i] == inherited[i];
  }

  /** `GetDefaultHeaders`: the inherited sets, then the config's own headers. */
  function GetDefaultHeaders(c: Config, inherited: seq<Headers>): (r: Headers)
    ensures forall k :: k in r <==> k in c.defaultHeaders || exists i :: 0 <= i < |inherited| && k in inherited[i]
    ensures forall k :: k in c.defaultHeaders ==> r[k] == c.defaultHeaders[k]
  {
    MergeHeaders(inherited) + c.defaultHeaders
  }

  /** A header the config does not set takes its value from the last
      inherited set that has it. */
  lemma {:induction false} LastInheritedWins(c: Config, inherited: seq<Headers>, i: nat, k: String)
    requires i < |inherited| && k in inherited[i] && k !in c.defaultHeaders
    requires forall j :: i < j < |inherited| ==> k !in inherited[j]
    ensures GetDefaultHeaders(c, inherited)[k] == inherited[i][k]
  {
    MergedLastWins(inherited, i, k);
  }

  lemma {:induction false} MergedLastWins(inherited: seq<Headers>, i: nat, k: String)
    requires i < |inherited| && k in inherited[i]
    requires forall j :: i < j < |inherited| ==> k !in inherited[j]
    ensures MergeHeaders(inherited)[k] == inherited[i][k]
    decreases |inherited|
  {
    if i < |inherited| - 1 {
      var init := inherited[..|inherited| - 1];
      assert init[i] == inherited[i];
      assert forall j :: i < j < |init| ==> init[j] == inherited[j];
      MergedLastWins(init, i, k);
    }
  }

  /** `BaseURLIsSecureScheme`: a non-empty base URL whose lower-cased form
      starts with one of the secure schemes. */
  predicate BaseURLIsSecureScheme(c: Config, schemeHttps: String, schemeSpdy: String) {
    |c.baseURL| > 0
    && (HasPrefix(ToLower(c.baseURL), schemeHttps) || HasPrefix(ToLower(c.baseURL), schemeSpdy))
  }

  /** `IsSecure`: a TLS key pair, or a secure base URL. */
  predicate IsSecure(c: Config, schemeHttps: String, schemeSpdy: String) {
    c.hasKeyPair || BaseURLIsSecureScheme(c, schemeHttps, schemeSpdy)
  }

  /** The scheme test ignores the case of the base URL: upper-casing it
      changes nothing, and a URL that starts with a scheme spelled in lower
      case is secure whatever case it is written in. */
  lemma SecureSchemeIgnoresCase(c: Config, schemeHttps: String, schemeSpdy: String)
    ensures BaseURLIsSecureScheme(c.(baseURL := ToUpper(c.baseURL)), schemeHttps, schemeSpdy)
      == BaseURLIsSecureScheme(c, schemeHttps, schemeSpdy)
    ensures |c.baseURL| > 0 && HasPrefix(c.baseURL, schemeHttps) && (forall i :: 0 <= i < |schemeHttps| ==> !IsAsciiUpper(schemeHttps[i]))
      ==> (BaseURLIsSecureScheme(c.(baseURL := ToUpper(c.baseURL)), schemeHttps, schemeSpdy)
           && IsSecure(c, schemeHttps, schemeSpdy))
  {
    assert ToLower(ToUpper(c.baseURL)) == ToLower(c.baseURL);
    if HasPrefix(c.baseURL, schemeHttps) && (forall i :: 0 <= i < |schemeHttps| ==> !IsAsciiUpper(schemeHttps[i])) {
      if |schemeHttps| > 0 {
        assert ToLower(c.baseURL)[..|schemeHttps|] == schemeHttps;
      } else {
        assert ToLower(c.baseURL)[..0] == schemeHttps;
      }
    }
  }
}
