/** When the two sides of the interface choose the same route for every request, and two ordinary
    routes for which they do not. */
module RouteSides {
  import opened Basics
  import opened Text
  import opened RoutePatterns
  import opened Routers
  import opened RouteOrders

  /** Whatever the orders of the tables and the path, the route Julia runs is the one Rust resolved. */
  ghost predicate SidesAgree(app: map<RouteKey, nat>, http: map<RouteKey, HttpRoute>, native: map<RouteKey, string>, verb: string) {
    forall ho, no, order, path ::
      Order(ho, http.Keys) && Order(no, native.Keys) && Order(order, app.Keys)
      && Resolved(http, native, ho, no, verb, Normalized(path)).Handler? ==>
        SameRoute(JuliaLookup(app.Keys, order, verb, path), verb, Resolved(http, native, ho, no, verb, Normalized(path)))
  }

  predicate SameRoute(julia: Option<RouteKey>, verb: string, rust: Resolution)
    requires rust.Handler?
  {
    julia.Some? && RustKey(julia.value) == RouteKey(verb, rust.pattern)
  }

  /** Two routes of the method that Rust keeps apart. */
  predicate Apart(k: RouteKey, k': RouteKey, verb: string) {
    k.verb == k'.verb == verb && RustKey(k) != RustKey(k')
  }

  /** Where two such routes overlap, one native route takes all they have in common. */
  ghost predicate NativeCovers(app: set<RouteKey>, natives: set<RouteKey>, verb: string) {
    forall k, k' :: k in app && k' in app && Apart(k, k', verb) && Overlap(k.path, k'.path) ==>
      exists n :: n in natives && TakesCommon(n, k, k', verb)
  }

  /** The app has a route under every way of writing this path that Rust takes for it. */
  predicate EverySpelling(app: set<RouteKey>, verb: string, path: string) {
    && RouteKey(verb, path + "/") in app
    && (Normalized(path) == path ==> RouteKey(verb, path) in app)
  }

  /** Where the text of one route fits the pattern of another, the app spells the first out both
      with and without the trailing slash, so that Julia finds it exactly too. */
  ghost predicate ExactHitsSpelled(app: set<RouteKey>, verb: string) {
    forall k, k' :: k in app && k' in app && Apart(k, k', verb) && Matches(k'.path, k.path) ==>
      EverySpelling(app, verb, Normalized(k.path))
  }

  /** The two ways to write a path that Rust takes for a given one. */
  lemma Spellings(path: string, stored: string)
    requires stored != ""
    ensures Normalized(path) == stored <==> path == stored + "/" || (path == stored && Normalized(stored) == stored)
  {
    if |path| > 1 && path[|path| - 1] == '/' {
      assert path == path[..|path| - 1] + "/";
    }
    assert (stored + "/")[..|stored|] == stored;
  }

  lemma StoredKey(k: RouteKey)
    requires Registrable(k)
    ensures RustKey(k) == RouteKey(k.verb, Normalized(k.path)) && Normalized(k.path) != ""
    ensures Segments(Normalized(k.path)) == Segments(k.path)
  {
    NormalizedSegments(k.path);
  }

  /** What Julia runs when the key is not found as it stands: any route that serves the path, in
      some order. */
  lemma JuliaRuns(app: map<RouteKey, nat>, k: RouteKey, verb: string, path: string) returns (order: seq<RouteKey>)
    requires k in app && Serves(k, verb, path) && RouteKey(verb, path) !in app
    ensures Order(order, app.Keys) && JuliaLookup(app.Keys, order, verb, path) == Some(k)
  {
    order := OrderFrom(app.Keys, k);
  }

  lemma ExactHitsDiffer(app: map<RouteKey, nat>, http: map<RouteKey, HttpRoute>, native: map<RouteKey, string>,
                        verb: string, k: RouteKey, k': RouteKey)
    requires forall k :: k in app ==> Registrable(k)
    requires http.Keys == RustKeys(app.Keys)
    requires k in app && k' in app && Apart(k, k', verb) && Matches(k'.path, k.path)
    requires !EverySpelling(app.Keys, verb, Normalized(k.path))
    ensures !SidesAgree(app, http, native, verb)
  {
    var stored := Normalized(k.path);
    StoredKey(k);
    var path := if RouteKey(verb, stored + "/") !in app then stored + "/" else stored;
    Spellings(path, stored);
    NormalizedSegments(path);
    var order := JuliaRuns(app, k', verb, path);
    var ho := SomeOrder(http.Keys);
    var no := SomeOrder(native.Keys);
    assert RustKey(k) in http;
    DifferentRoutes(app, http, native, ho, no, order, verb, path, k', stored);
  }

  lemma DifferentRoutes(app: map<RouteKey, nat>, http: map<RouteKey, HttpRoute>, native: map<RouteKey, string>,
                        ho: seq<RouteKey>, no: seq<RouteKey>, order: seq<RouteKey>, verb: string, path: string,
                        k': RouteKey, pattern: string)
    requires Order(ho, http.Keys) && Order(no, native.Keys) && Order(order, app.Keys)
    requires RustKey(k') != RouteKey(verb, pattern) && JuliaLookup(app.Keys, order, verb, path) == Some(k')
    requires Resolved(http, native, ho, no, verb, Normalized(path)).Handler?
    requires Resolved(http, native, ho, no, verb, Normalized(path)).pattern == pattern
    ensures !SidesAgree(app, http, native, verb)
  {
    assert !SameRoute(JuliaLookup(app.Keys, order, verb, path), verb, Resolved(http, native, ho, no, verb, Normalized(path)));
  }

  /** What Rust resolves a path to that is no key and that no native route serves: any handler that
      serves it, in some order. */
  lemma RustScans(http: map<RouteKey, HttpRoute>, native: map<RouteKey, string>, k: RouteKey, verb: string, path: string)
    returns (ho: seq<RouteKey>, no: seq<RouteKey>)
    requires k in http && Serves(k, verb, path) && !Served(native.Keys, verb, path)
    requires RouteKey(verb, path) !in http && RouteKey(verb, path) !in native
    ensures Order(ho, http.Keys) && Order(no, native.Keys)
    ensures Resolved(http, native, ho, no, verb, path) == Handler(http[k], k.path)
  {
    ho := OrderFrom(http.Keys, k);
    no := SomeOrder(native.Keys);
    FirstMatchServed(no, native.Keys, verb, path);
  }

  lemma ScansDiffer(app: map<RouteKey, nat>, http: map<RouteKey, HttpRoute>, native: map<RouteKey, string>,
                    verb: string, k: RouteKey, k': RouteKey)
    requires forall k :: k in app ==> Registrable(k)
    requires http.Keys == RustKeys(app.Keys)
    requires k in app && k' in app && Apart(k, k', verb) && Overlap(k.path, k'.path)
    requires forall n :: n in native.Keys ==> !TakesCommon(n, k, k', verb)
    ensures !SidesAgree(app, http, native, verb)
  {
    var a := OpenPath(k, k', app.Keys + http.Keys + native.Keys, native.Keys, verb);
    var path := a + "/";
    Spellings(path, a);
    NormalizedSegments(path);
    StoredKey(k);
    assert RouteKey(verb, path) !in app && RouteKey(verb, a) !in http && RouteKey(verb, a) !in native;
    var order := JuliaRuns(app, k', verb, path);
    var ho, no := RustScans(http, native, RustKey(k), verb, a);
    DifferentRoutes(app, http, native, ho, no, order, verb, path, k', Normalized(k.path));
  }

  lemma ConditionsSuffice(app: map<RouteKey, nat>, http: map<RouteKey, HttpRoute>, native: map<RouteKey, string>,
                          ho: seq<RouteKey>, no: seq<RouteKey>, order: seq<RouteKey>, verb: string, path: string)
    requires forall k :: k in app ==> Registrable(k)
    requires http.Keys == RustKeys(app.Keys)
    requires NativeCovers(app.Keys, native.Keys, verb) && ExactHitsSpelled(app.Keys, verb)
    requires Order(ho, http.Keys) && Order(no, native.Keys) && Order(order, app.Keys)
    requires Resolved(http, native, ho, no, verb, Normalized(path)).Handler?
    ensures SameRoute(JuliaLookup(app.Keys, order, verb, path), verb, Resolved(http, native, ho, no, verb, Normalized(path)))
  {
    RoutersAgree(app, http, native, ho, no, order, verb, path);
    ResolutionExact(http, native, ho, no, verb, Normalized(path));
    var rust := Resolved(http, native, ho, no, verb, Normalized(path));
    var k' := JuliaLookup(app.Keys, order, verb, path).value;
    var k :| k in app && RustKey(k) == RouteKey(verb, rust.pattern);
    StoredKey(k);
    StoredKey(k');
    NormalizedSegments(path);
    if RouteKey(verb, path) in app {
      assert RustKey(RouteKey(verb, path)) == RouteKey(verb, Normalized(path));
      assert RouteKey(verb, Normalized(path)) in http;
    } else if RustKey(k) != RustKey(k') {
      assert Serves(k', verb, path) && Apart(k, k', verb);
      if RouteKey(verb, Normalized(path)) in http {
        Spellings(path, Normalized(k.path));
        assert Matches(k'.path, k.path);
      } else {
        OverlapExact(k.path, k'.path);
        var n :| n in native.Keys && TakesCommon(n, k, k', verb);
        CoverTakes(n.path, k.path, k'.path, Normalized(path));
        assert Serves(n, verb, Normalized(path));
      }
    }
  }

  /** The two sides choose the same route for every request and all orders exactly when two things
      hold of any two routes of the method that Rust keeps apart: where they overlap, a native route
      takes all they have in common; and where the text of one fits the other, the app spells it out
      with and without the trailing slash. */
  lemma SidesAgreeExactly(app: map<RouteKey, nat>, http: map<RouteKey, HttpRoute>, native: map<RouteKey, string>, verb: string)
    requires forall k :: k in app ==> Registrable(k)
    requires http.Keys == RustKeys(app.Keys)
    ensures SidesAgree(app, http, native, verb)
            <==> NativeCovers(app.Keys, native.Keys, verb) && ExactHitsSpelled(app.Keys, verb)
  {
    if !NativeCovers(app.Keys, native.Keys, verb) {
      var k, k' :| k in app.Keys && k' in app.Keys && Apart(k, k', verb) && Overlap(k.path, k'.path)
                   && forall n :: n in native.Keys ==> !TakesCommon(n, k, k', verb);
      ScansDiffer(app, http, native, verb, k, k');
    } else if !ExactHitsSpelled(app.Keys, verb) {
      var k, k' :| k in app.Keys && k' in app.Keys && Apart(k, k', verb) && Matches(k'.path, k.path)
                   && !EverySpelling(app.Keys, verb, Normalized(k.path));
      ExactHitsDiffer(app, http, native, verb, k, k');
    } else {
      forall ho, no, order, path
        | Order(ho, http.Keys) && Order(no, native.Keys) && Order(order, app.Keys)
          && Resolved(http, native, ho, no, verb, Normalized(path)).Handler?
        ensures SameRoute(JuliaLookup(app.Keys, order, verb, path), verb, Resolved(http, native, ho, no, verb, Normalized(path)))
      {
        ConditionsSuffice(app, http, native, ho, no, order, verb, path);
      }
    }
  }

  /** An app with a literal and a parameter in one place, like /u/me and /u/:id, is one on which they
      differ, whatever the native routes are: the request /u/me/ is one. */
  lemma LiteralAndParameter(app: map<RouteKey, nat>, http: map<RouteKey, HttpRoute>, native: map<RouteKey, string>,
                            first: string, literal: string, name: string)
    requires first != "" && literal != "" && '/' !in first && '/' !in literal && '/' !in name && !Dynamic(literal)
    requires '*' !in first && '*' !in literal && '*' !in name
    requires app.Keys == {RouteKey("GET", "/" + first + "/" + literal), RouteKey("GET", "/" + first + "/:" + name)}
    requires http.Keys == RustKeys(app.Keys)
    ensures (forall k :: k in app ==> Registrable(k)) && !SidesAgree(app, http, native, "GET")
  {
    var k, k' := RouteKey("GET", "/" + first + "/" + literal), RouteKey("GET", "/" + first + "/:" + name);
    assert "/" + first + "/:" + name == "/" + first + "/" + (":" + name);
    TwoPart(first, literal);
    TwoPart(first, ":" + name);
    MixedRoutes(first, literal, name);
    assert !EverySpelling(app.Keys, "GET", Normalized(k.path));
    SidesAgreeExactly(app, http, native, "GET");
  }

  lemma TwoPart(first: string, last: string)
    requires last != "" && '/' !in last && '*' !in first && '*' !in last
    ensures Registrable(RouteKey("GET", "/" + first + "/" + last))
    ensures Normalized("/" + first + "/" + last) == "/" + first + "/" + last
  {
    var path := "/" + first + "/" + last;
    assert last[|last| - 1] in last && path[|path| - 1] == last[|last| - 1];
    assert Upper("GET") == "GET";
  }

  lemma MixedRoutes(first: string, literal: string, name: string)
    requires first != "" && literal != "" && '/' !in first && '/' !in literal && '/' !in name && !Dynamic(literal)
    ensures var p, p' := "/" + first + "/" + literal, "/" + first + "/" + (":" + name);
            Matches(p', p) && p != p' && p + "/" != p && p + "/" != p'
  {
    TwoSegments(first, literal);
    TwoSegments(first, ":" + name);
    assert SegmentMatches(":" + name, literal) && SegmentMatches(first, first);
    OtherTexts("/" + first + "/", literal, ":" + name);
  }

  /** Two texts with one beginning, whose ends differ at once and have no slash. */
  lemma OtherTexts(a: string, b: string, c: string)
    requires b != "" && c != "" && b[0] != c[0] && '/' !in c
    ensures a + b != a + c && a + b + "/" != a + b && a + b + "/" != a + c
  {
    assert (a + b)[|a|] == b[0] && (a + c)[|a|] == c[0] && (a + b + "/")[|a|] == b[0];
  }
}
