/** What becomes of a request once its route is resolved: handed to Julia, to the native engine, or
    answered by the server itself. */
module Dispatch {
  import opened Basics
  import opened RoutePatterns
  import opened Routers

  datatype Fate =
    | ToJulia(route: HttpRoute)
    | ToNative(entity: string)
    | StatusPage
    | NoDatabase
    | Preflight
    | AnswerNotAllowed
    | AnswerNotFound

  /** The branches after the resolution. The path is the one the client sent; allowed is the list of
      methods, which is asked for with OPTIONS and with a 405 only; connected says whether there is a
      database. */
  function Dispatched(r: Resolution, verb: string, path: string, allowed: Option<seq<string>>, connected: bool): Fate {
    if verb == "OPTIONS" then
      if r.Handler? then ToJulia(r.route)
      else if allowed == None then AnswerNotFound
      else Preflight
    else if verb == "GET" && path == "/" then StatusPage
    else
      match r
      case Handler(route, _) => ToJulia(route)
      case Native(entity, _) => if connected then ToNative(entity) else NoDatabase
      case MethodNotAllowed => AnswerNotAllowed
      case NotFound => AnswerNotFound
  }

  /** Which of the requests that come to resolution reach Julia: exactly those for which Julia finds a handler, the status page of
      the root does not come first, and no native route takes them. */
  lemma ReachesJulia(app: map<RouteKey, nat>, http: map<RouteKey, HttpRoute>, native: map<RouteKey, string>,
                     ho: seq<RouteKey>, no: seq<RouteKey>, order: seq<RouteKey>,
                     verb: string, path: string, allowed: Option<seq<string>>, connected: bool)
    requires forall k :: k in app ==> Registrable(k)
    requires http.Keys == RustKeys(app.Keys)
    requires Order(ho, http.Keys) && Order(no, native.Keys) && Order(order, app.Keys)
    ensures Dispatched(Resolved(http, native, ho, no, verb, Normalized(path)), verb, path, allowed, connected).ToJulia?
            <==> JuliaLookup(app.Keys, order, verb, path).Some?
                 && !(verb == "GET" && path == "/")
                 && (RouteKey(verb, Normalized(path)) in http || !Served(native.Keys, verb, Normalized(path)))
  {
    RoutersAgree(app, http, native, ho, no, order, verb, path);
    ResolutionExact(http, native, ho, no, verb, Normalized(path));
  }

  /** Which requests reach the native engine. */
  lemma ReachesNative(http: map<RouteKey, HttpRoute>, native: map<RouteKey, string>,
                      ho: seq<RouteKey>, no: seq<RouteKey>, verb: string, path: string, allowed: Option<seq<string>>, connected: bool)
    requires Order(ho, http.Keys) && Order(no, native.Keys)
    ensures Dispatched(Resolved(http, native, ho, no, verb, Normalized(path)), verb, path, allowed, connected).ToNative?
            <==> Served(native.Keys, verb, Normalized(path)) && RouteKey(verb, Normalized(path)) !in http
                 && verb != "OPTIONS" && !(verb == "GET" && path == "/") && connected
  {
    ResolutionExact(http, native, ho, no, verb, Normalized(path));
  }

  /** What is answered without a handler: not found exactly where no pattern fits, apart from the
      root, which always has an answer to OPTIONS and GET; not allowed exactly where some pattern
      fits, none with the method, and the method is not OPTIONS. */
  lemma AnsweredExactly(http: map<RouteKey, HttpRoute>, native: map<RouteKey, string>,
                        ho: seq<RouteKey>, no: seq<RouteKey>, verb: string, path: string, allowed: Option<seq<string>>, connected: bool)
    requires Order(ho, http.Keys) && Order(no, native.Keys)
    requires AllowedList(http.Keys + native.Keys, Normalized(path), allowed)
    ensures var fate := Dispatched(Resolved(http, native, ho, no, verb, Normalized(path)), verb, path, allowed, connected);
            var known := Known(http.Keys + native.Keys, Normalized(path));
            && (fate == AnswerNotFound <==>
                  !known && !(verb == "GET" && path == "/") && !(verb == "OPTIONS" && Normalized(path) == "/"))
            && (fate == AnswerNotAllowed <==>
                  known && !Served(http.Keys + native.Keys, verb, Normalized(path))
                  && verb != "OPTIONS" && !(verb == "GET" && path == "/"))
  {
    ResolutionExact(http, native, ho, no, verb, Normalized(path));
    KnownUnion(http.Keys, native.Keys, Normalized(path));
    ServedKnown(http.Keys, verb, Normalized(path));
  }

  /** What is handed on: to Julia the callback of a route that serves the path, the one stored under the
      exact key if there is one; and so for the entity of a native route. */
  lemma HandedOn(http: map<RouteKey, HttpRoute>, native: map<RouteKey, string>,
                 ho: seq<RouteKey>, no: seq<RouteKey>, verb: string, path: string, allowed: Option<seq<string>>, connected: bool)
    requires Order(ho, http.Keys) && Order(no, native.Keys)
    ensures var fate := Dispatched(Resolved(http, native, ho, no, verb, Normalized(path)), verb, path, allowed, connected);
            var key := RouteKey(verb, Normalized(path));
            && (fate.ToJulia? ==> exists k :: k in http && Serves(k, verb, Normalized(path)) && fate.route == http[k]
                                              && (key in http ==> k == key))
            && (fate.ToNative? ==> exists k :: k in native && Serves(k, verb, Normalized(path)) && fate.entity == native[k]
                                               && (key in native ==> k == key))
  {
    var r := Resolved(http, native, ho, no, verb, Normalized(path));
    ResolutionExact(http, native, ho, no, verb, Normalized(path));
    if r.Handler? {
      assert Serves(RouteKey(verb, r.pattern), verb, Normalized(path));
    } else if r.Native? {
      assert Serves(RouteKey(verb, r.pattern), verb, Normalized(path));
    }
  }

  /** The server's other answers: the status page for GET on the root; that there is no database where
      a native route would take the request and none is connected; and the preflight answer for
      OPTIONS where no handler takes it and some pattern fits, or on the root. */
  lemma OtherAnswersExactly(http: map<RouteKey, HttpRoute>, native: map<RouteKey, string>,
                            ho: seq<RouteKey>, no: seq<RouteKey>, verb: string, path: string, allowed: Option<seq<string>>, connected: bool)
    requires Order(ho, http.Keys) && Order(no, native.Keys)
    requires AllowedList(http.Keys + native.Keys, Normalized(path), allowed)
    ensures var fate := Dispatched(Resolved(http, native, ho, no, verb, Normalized(path)), verb, path, allowed, connected);
            var exact := RouteKey(verb, Normalized(path)) in http;
            var handled := Served(http.Keys, verb, Normalized(path)) && (exact || !Served(native.Keys, verb, Normalized(path)));
            && (fate == StatusPage <==> verb == "GET" && path == "/")
            && (fate == NoDatabase <==> !connected && Served(native.Keys, verb, Normalized(path)) && !exact
                                        && verb != "OPTIONS" && !(verb == "GET" && path == "/"))
            && (fate == Preflight <==> verb == "OPTIONS" && !handled
                                       && (Known(http.Keys + native.Keys, Normalized(path)) || Normalized(path) == "/"))
  {
    ResolutionExact(http, native, ho, no, verb, Normalized(path));
  }

  /** GET with the path / is answered by the server itself: a handler registered for it does not run
      for that path, although the resolution chooses it and Julia would find it. */
  lemma RootPathAnsweredFirst(handler: nat, route: HttpRoute, allowed: Option<seq<string>>, connected: bool)
    ensures var root := RouteKey("GET", "/");
            && Registrable(root) && RustKeys({root}) == {root} && Order([root], {root}) && Order([], {})
            && Resolved(map[root := route], map[], [root], [], "GET", "/") == Handler(route, "/")
            && JuliaLookup({root}, [root], "GET", "/") == Some(root)
            && Dispatched(Resolved(map[root := route], map[], [root], [], "GET", "/"), "GET", "/", allowed, connected) == StatusPage
  {
    var root := RouteKey("GET", "/");
    assert RustKey(root) == root;
    assert map[root := route].Keys == {root};
  }

  /** It runs exactly for the other ways to write the root: with this handler only, a request reaches
      Julia exactly when it is GET, its path has no segments, and it is not / itself. */
  lemma RootHandlerRunsExactly(route: HttpRoute, verb: string, path: string, allowed: Option<seq<string>>, connected: bool)
    ensures var root := RouteKey("GET", "/");
            Order([root], map[root := route].Keys) && Order([], {})
            && (Dispatched(Resolved(map[root := route], map[], [root], [], verb, Normalized(path)), verb, path, allowed, connected).ToJulia?
                <==> verb == "GET" && Segments(path) == [] && path != "/")
  {
    var root := RouteKey("GET", "/");
    ServesRoot(verb, path);
  }

  lemma ServesRoot(verb: string, path: string)
    ensures Serves(RouteKey("GET", "/"), verb, Normalized(path)) <==> verb == "GET" && Segments(path) == []
  {
    RootSegments();
    NormalizedSegments(path);
  }

  lemma RootSegments()
    ensures Segments("/") == [] && Segments("//") == []
  {
    NoSegments();
    SegmentsConcat("", "");
    SegmentsConcat("", "/");
    assert "" + "/" + "" == "/" && "" + "/" + "/" == "//";
  }
}
