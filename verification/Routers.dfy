/** Route resolution on both sides of the interface: the Rust server decides between a Julia
    handler, a native entity and an error; Julia then looks the handler up again, with the path as
    the client sent it. Hash maps are scanned in any order of their keys. */
module Routers {
  import opened Basics
  import opened Text
  import opened RoutePatterns
  import opened Dictionaries

  datatype RouteKey = RouteKey(verb: string, path: string)

  /** What the Rust table stores for a handler: a callback and its user data. */
  datatype HttpRoute = HttpRoute(callback: nat, userdata: nat)

  datatype Resolution =
    | Handler(route: HttpRoute, pattern: string)
    | Native(entity: string, pattern: string)
    | MethodNotAllowed
    | NotFound

  datatype Status = FfiOk | InvalidRoute

  /** An order in which a hash table gives its keys. */
  ghost predicate Order(order: seq<RouteKey>, keys: set<RouteKey>) {
    && (forall k :: k in order <==> k in keys)
    && (forall i, j :: 0 <= i < j < |order| ==> order[i] != order[j])
  }

  predicate Serves(k: RouteKey, verb: string, path: string) {
    k.verb == verb && Matches(k.path, path)
  }

  /** Some key of the table has this verb and a pattern the path fits. */
  ghost predicate Served(keys: set<RouteKey>, verb: string, path: string) {
    exists k :: k in keys && Serves(k, verb, path)
  }

  /** Some key of the table has a pattern the path fits, whatever its verb. */
  ghost predicate Known(keys: set<RouteKey>, path: string) {
    exists k :: k in keys && Matches(k.path, path)
  }

  function FirstMatch(order: seq<RouteKey>, verb: string, path: string): (r: Option<RouteKey>)
    ensures r.Some? ==> r.value in order && Serves(r.value, verb, path)
    ensures r == None ==> forall k :: k in order ==> !Serves(k, verb, path)
  {
    if order == [] then None
    else if Serves(order[0], verb, path) then Some(order[0])
    else FirstMatch(order[1..], verb, path)
  }

  // ----- registration

  /** A key as the Rust side stores it. */
  function RustKey(k: RouteKey): RouteKey {
    RouteKey(Upper(k.verb), Normalized(k.path))
  }

  function RustKeys(keys: set<RouteKey>): set<RouteKey> {
    set k | k in keys :: RustKey(k)
  }

  /** A table after registering keys in order, each with its route. */
  function Registered<V>(table: map<RouteKey, V>, order: seq<RouteKey>, route: RouteKey -> V): map<RouteKey, V> {
    if order == [] then table
    else
      var last := order[|order| - 1];
      Registered(table, order[..|order| - 1], route)[RustKey(last) := route(last)]
  }

  predicate AllValid(order: seq<RouteKey>) {
    forall i :: 0 <= i < |order| ==> order[i].verb != "" && ValidPath(order[i].path)
  }

  lemma OneMoreRoute<V>(table: map<RouteKey, V>, order: seq<RouteKey>, i: nat, route: RouteKey -> V)
    requires i < |order|
    ensures Registered(table, order[..i + 1], route) == Registered(table, order[..i], route)[RustKey(order[i]) := route(order[i])]
    ensures AllValid(order[..i + 1]) <==> AllValid(order[..i]) && order[i].verb != "" && ValidPath(order[i].path)
    ensures AllValid(order) ==> AllValid(order[..i + 1])
  {
    assert order[..i + 1][..i] == order[..i];
    assert order[..i + 1][i] == order[i];
  }

  function Always(callback: HttpRoute): RouteKey -> HttpRoute {
    _ => callback
  }

  function EntityOf(entities: map<RouteKey, string>): RouteKey -> string {
    k => if k in entities then entities[k] else ""
  }

  /** Its keys are the old ones and the registered ones as Rust stores them. */
  lemma {:induction false} RegisteredKeys<V>(table: map<RouteKey, V>, order: seq<RouteKey>, route: RouteKey -> V)
    ensures Registered(table, order, route).Keys == table.Keys + RustKeys(set k | k in order)
  {
    if order == [] {
    } else {
      var before, last := order[..|order| - 1], order[|order| - 1];
      RegisteredKeys(table, before, route);
      assert order == before + [last];
      assert RustKeys(set k | k in order) == RustKeys(set k | k in before) + {RustKey(last)};
    }
  }

  /** The route tables of the Rust server. */
  class RouteTables {
    var http: map<RouteKey, HttpRoute>
    var native: map<RouteKey, string>

    constructor ()
      ensures http == map[] && native == map[]
    {
      http, native := map[], map[];
    }

    method RegisterHttp(verb: string, path: string, route: HttpRoute) returns (status: Status)
      modifies this`http
      ensures status == FfiOk <==> verb != "" && ValidPath(path)
      ensures status == FfiOk ==> http == old(http)[RustKey(RouteKey(verb, path)) := route]
      ensures status != FfiOk ==> http == old(http)
    {
      if verb == "" || !ValidPath(path) {
        return InvalidRoute;
      }
      var stored := path;
      if |stored| > 1 && stored[|stored| - 1] == '/' {
        stored := stored[..|stored| - 1];
      }
      http := http[RouteKey(Upper(verb), stored) := route];
      status := FfiOk;
    }

    method RegisterNative(verb: string, path: string, entity: string) returns (status: Status)
      modifies this`native
      ensures status == FfiOk <==> verb != "" && ValidPath(path)
      ensures status == FfiOk ==> native == old(native)[RustKey(RouteKey(verb, path)) := entity]
      ensures status != FfiOk ==> native == old(native)
    {
      if verb == "" || !ValidPath(path) {
        return InvalidRoute;
      }
      native := native[RouteKey(Upper(verb), Normalized(path)) := entity];
      status := FfiOk;
    }

    /** Registering the routes of an app, in the order its dictionaries give them: every handler
        with one and the same callback, then every native route with its entity. The first route
        that is refused ends it. */
    method RegisterRoutes(order: seq<RouteKey>, callback: HttpRoute, nativeOrder: seq<RouteKey>, entities: map<RouteKey, string>)
      returns (status: Status)
      requires forall k :: k in nativeOrder ==> k in entities
      modifies this
      ensures status == FfiOk <==> AllValid(order) && AllValid(nativeOrder)
      ensures status == FfiOk ==> http == Registered(old(http), order, Always(callback))
      ensures status == FfiOk ==> native == Registered(old(native), nativeOrder, EntityOf(entities))
      ensures status == FfiOk ==> http.Keys == old(http.Keys) + RustKeys(set k | k in order)
      ensures status == FfiOk ==> native.Keys == old(native.Keys) + RustKeys(set k | k in nativeOrder)
    {
      for i := 0 to |order|
        invariant AllValid(order[..i])
        invariant http == Registered(old(http), order[..i], Always(callback)) && native == old(native)
      {
        OneMoreRoute(old(http), order, i, Always(callback));
        status := RegisterHttp(order[i].verb, order[i].path, callback);
        if status != FfiOk {
          return;
        }
      }
      assert order[..|order|] == order;
      for i := 0 to |nativeOrder|
        invariant AllValid(order) && AllValid(nativeOrder[..i]) && http == Registered(old(http), order, Always(callback))
        invariant native == Registered(old(native), nativeOrder[..i], EntityOf(entities))
      {
        OneMoreRoute(old(native), nativeOrder, i, EntityOf(entities));
        status := RegisterNative(nativeOrder[i].verb, nativeOrder[i].path, entities[nativeOrder[i]]);
        if status != FfiOk {
          return;
        }
      }
      assert nativeOrder[..|nativeOrder|] == nativeOrder;
      RegisteredKeys(old(http), order, Always(callback));
      RegisteredKeys(old(native), nativeOrder, EntityOf(entities));
      status := FfiOk;
    }

    /** Stopping the server clears the handlers and leaves the native routes. */
    method ClearHttp()
      modifies this
      ensures http == map[] && native == old(native)
    {
      http := map[];
    }

    /** The resolution of a request: exact keys first, then a scan of each table. */
    method Resolve(httpOrder: seq<RouteKey>, nativeOrder: seq<RouteKey>, verb: string, path: string)
      returns (r: Resolution)
      requires Order(httpOrder, http.Keys) && Order(nativeOrder, native.Keys)
      ensures r == Resolved(http, native, httpOrder, nativeOrder, verb, path)
    {
      var key := RouteKey(verb, path);
      if key in http {
        return Handler(http[key], path);
      }
      if key in native {
        return Native(native[key], path);
      }
      var n := Scan(nativeOrder, verb, path);
      if n.Some? {
        return Native(native[n.value], n.value.path);
      }
      var h := Scan(httpOrder, verb, path);
      if h.Some? {
        return Handler(http[h.value], h.value.path);
      }
      var known := false;
      var keys := httpOrder + nativeOrder;
      for i := 0 to |keys|
        invariant !known
        invariant forall j :: 0 <= j < i ==> !Matches(keys[j].path, path)
      {
        var fits := MatchDynamicPath(keys[i].path, path);
        if keys[i].path == path || fits {
          known := true;
          assert keys[i] in keys;
          break;
        }
      }
      assert known <==> Known(http.Keys + native.Keys, path) by {
        assert forall k :: k in keys <==> k in http.Keys + native.Keys;
      }
      r := if known then MethodNotAllowed else NotFound;
    }

    /** The methods offered with a 405 or on OPTIONS. */
    method AllowedMethods(httpOrder: seq<RouteKey>, nativeOrder: seq<RouteKey>, path: string)
      returns (r: Option<seq<string>>)
      requires Order(httpOrder, http.Keys) && Order(nativeOrder, native.Keys)
      ensures AllowedList(http.Keys + native.Keys, path, r)
    {
      ghost var keys := http.Keys + native.Keys;
      var methods := Collect(httpOrder + nativeOrder, path);
      VerbsMeaning(httpOrder + nativeOrder, keys, path);
      methods := Offered(methods, path == "/", "GET");
      if methods == [] {
        return None;
      }
      methods := Offered(methods, true, "OPTIONS");
      r := Some(Deduplicated(Sorted(methods)));
    }
  }

  /** One more method, if it is called for and not in the list yet. */
  function Offered(methods: seq<string>, wanted: bool, m: string): (r: seq<string>)
    ensures forall x :: x in r <==> x in methods || (wanted && x == m)
    ensures r == [] <==> methods == [] && !wanted
  {
    if wanted && m !in methods then methods + [m] else methods
  }

  /** The verbs of the keys whose pattern the path fits, in scan order and with repetitions. */
  method Collect(order: seq<RouteKey>, path: string) returns (methods: seq<string>)
    ensures methods == Verbs(order, path)
  {
    methods := [];
    for i := 0 to |order|
      invariant methods == Verbs(order[..i], path)
    {
      assert order[..i + 1][..i] == order[..i];
      var fits := MatchDynamicPath(order[i].path, path);
      if order[i].path == path || fits {
        methods := methods + [order[i].verb];
      }
    }
    assert order[..|order|] == order;
  }

  function Verbs(order: seq<RouteKey>, path: string): seq<string> {
    if order == [] then []
    else
      var last := order[|order| - 1];
      Verbs(order[..|order| - 1], path) + if Matches(last.path, path) then [last.verb] else []
  }

  lemma {:induction false} VerbsMembers(order: seq<RouteKey>, path: string, m: string)
    ensures m in Verbs(order, path) <==> exists k :: k in order && Serves(k, m, path)
  {
    if order == [] {
    } else {
      var before, last := order[..|order| - 1], order[|order| - 1];
      VerbsMembers(before, path, m);
      assert order == before + [last];
      assert Serves(last, m, path) <==> m in (if Matches(last.path, path) then [last.verb] else []);
    }
  }

  lemma VerbsMeaning(order: seq<RouteKey>, keys: set<RouteKey>, path: string)
    requires forall k :: k in order <==> k in keys
    ensures forall m :: m in Verbs(order, path) <==> Served(keys, m, path)
    ensures Verbs(order, path) == [] <==> !Known(keys, path)
  {
    forall m ensures m in Verbs(order, path) <==> Served(keys, m, path) {
      VerbsMembers(order, path, m);
    }
    VerbsEmpty(order, path);
  }

  lemma {:induction false} VerbsEmpty(order: seq<RouteKey>, path: string)
    ensures Verbs(order, path) == [] <==> forall k :: k in order ==> !Matches(k.path, path)
  {
    if order == [] {
    } else {
      var before, last := order[..|order| - 1], order[|order| - 1];
      VerbsEmpty(before, path);
      assert order == before + [last];
    }
  }

  /** The scan of one table. */
  method Scan(order: seq<RouteKey>, verb: string, path: string) returns (r: Option<RouteKey>)
    ensures r == FirstMatch(order, verb, path)
  {
    for i := 0 to |order|
      invariant FirstMatch(order, verb, path) == FirstMatch(order[i..], verb, path)
    {
      assert order[i..][0] == order[i] && order[i..][1..] == order[i + 1..];
      if order[i].verb == verb {
        var fits := MatchDynamicPath(order[i].path, path);
        if fits {
          return Some(order[i]);
        }
      }
    }
    assert order[|order|..] == [];
    r := None;
  }

  ghost function Resolved(http: map<RouteKey, HttpRoute>, native: map<RouteKey, string>,
                          httpOrder: seq<RouteKey>, nativeOrder: seq<RouteKey>, verb: string, path: string): Resolution
    requires Order(httpOrder, http.Keys) && Order(nativeOrder, native.Keys)
  {
    var key := RouteKey(verb, path);
    var h, n := FirstMatch(httpOrder, verb, path), FirstMatch(nativeOrder, verb, path);
    if key in http then Handler(http[key], path)
    else if key in native then Native(native[key], path)
    else if n.Some? then Native(native[n.value], n.value.path)
    else if h.Some? then Handler(http[h.value], h.value.path)
    else if Known(http.Keys + native.Keys, path) then MethodNotAllowed
    else NotFound
  }

  // ----- what resolution means

  /** The kind of answer, stated on the tables alone: no order appears in it. */
  lemma ResolutionExact(http: map<RouteKey, HttpRoute>, native: map<RouteKey, string>,
                        httpOrder: seq<RouteKey>, nativeOrder: seq<RouteKey>, verb: string, path: string)
    requires Order(httpOrder, http.Keys) && Order(nativeOrder, native.Keys)
    ensures var r := Resolved(http, native, httpOrder, nativeOrder, verb, path);
            var key := RouteKey(verb, path);
            && (r.NotFound? <==> !Known(http.Keys, path) && !Known(native.Keys, path))
            && (r.MethodNotAllowed? <==> (Known(http.Keys, path) || Known(native.Keys, path))
                                         && !Served(http.Keys, verb, path) && !Served(native.Keys, verb, path))
            && (r.Handler? <==> Served(http.Keys, verb, path) && (key in http || !Served(native.Keys, verb, path)))
            && (r.Native? <==> Served(native.Keys, verb, path) && key !in http)
            && (r.Handler? ==> RouteKey(verb, r.pattern) in http && Matches(r.pattern, path)
                               && r.route == http[RouteKey(verb, r.pattern)] && (key in http ==> r.pattern == path))
            && (r.Native? ==> RouteKey(verb, r.pattern) in native && Matches(r.pattern, path)
                              && r.entity == native[RouteKey(verb, r.pattern)] && (key in native ==> r.pattern == path))
  {
    var key := RouteKey(verb, path);
    assert key in http ==> Serves(key, verb, path);
    assert key in native ==> Serves(key, verb, path);
    var h, n := FirstMatch(httpOrder, verb, path), FirstMatch(nativeOrder, verb, path);
    FirstMatchServed(httpOrder, http.Keys, verb, path);
    FirstMatchServed(nativeOrder, native.Keys, verb, path);
    assert h.Some? ==> h.value == RouteKey(verb, h.value.path);
    assert n.Some? ==> n.value == RouteKey(verb, n.value.path);
    ServedKnown(http.Keys, verb, path);
    ServedKnown(native.Keys, verb, path);
    KnownUnion(http.Keys, native.Keys, path);
  }

  lemma FirstMatchServed(order: seq<RouteKey>, keys: set<RouteKey>, verb: string, path: string)
    requires Order(order, keys)
    ensures FirstMatch(order, verb, path).Some? <==> Served(keys, verb, path)
  {
  }

  lemma ServedKnown(keys: set<RouteKey>, verb: string, path: string)
    ensures Served(keys, verb, path) ==> Known(keys, path)
  {
  }

  lemma KnownUnion(a: set<RouteKey>, b: set<RouteKey>, path: string)
    ensures Known(a + b, path) <==> Known(a, path) || Known(b, path)
  {
    if k :| k in a + b && Matches(k.path, path) {
      assert k in a || k in b;
    }
    if k :| k in a && Matches(k.path, path) {
      assert k in a + b;
    }
    if k :| k in b && Matches(k.path, path) {
      assert k in a + b;
    }
  }

  // ----- order independence

  /** No two patterns of one verb have a path in common. */
  ghost predicate NonOverlapping(keys: set<RouteKey>, verb: string) {
    forall k, k' :: k in keys && k' in keys && k != k' && k.verb == k'.verb == verb ==> !Overlap(k.path, k'.path)
  }

  ghost predicate OrderIndependent(keys: set<RouteKey>, verb: string) {
    forall o, o', path :: Order(o, keys) && Order(o', keys) ==> FirstMatch(o, verb, path) == FirstMatch(o', verb, path)
  }

  lemma OneCandidate(keys: set<RouteKey>, verb: string, o: seq<RouteKey>, o': seq<RouteKey>, path: string)
    requires NonOverlapping(keys, verb) && Order(o, keys) && Order(o', keys)
    ensures FirstMatch(o, verb, path) == FirstMatch(o', verb, path)
  {
    var r, r' := FirstMatch(o, verb, path), FirstMatch(o', verb, path);
    FirstMatchServed(o, keys, verb, path);
    FirstMatchServed(o', keys, verb, path);
    if r.Some? && r'.Some? {
      OverlapExact(r.value.path, r'.value.path);
    }
  }

  lemma {:induction false} SomeOrder(keys: set<RouteKey>) returns (o: seq<RouteKey>)
    ensures Order(o, keys)
  {
    if keys == {} {
      o := [];
    } else {
      var k :| k in keys;
      var rest := SomeOrder(keys - {k});
      o := [k] + rest;
    }
  }

  lemma OrderFrom(keys: set<RouteKey>, k: RouteKey) returns (o: seq<RouteKey>)
    requires k in keys
    ensures Order(o, keys) && o[0] == k
  {
    var rest := SomeOrder(keys - {k});
    o := [k] + rest;
  }

  /** The scan gives the same answer in every order of the table, for every path, exactly when no
      two patterns of the verb overlap. */
  lemma OrderIndependenceExact(keys: set<RouteKey>, verb: string)
    ensures OrderIndependent(keys, verb) <==> NonOverlapping(keys, verb)
  {
    if NonOverlapping(keys, verb) {
      forall o, o', path | Order(o, keys) && Order(o', keys)
        ensures FirstMatch(o, verb, path) == FirstMatch(o', verb, path)
      {
        OneCandidate(keys, verb, o, o', path);
      }
    } else {
      var k, k' :| k in keys && k' in keys && k != k' && k.verb == k'.verb == verb && Overlap(k.path, k'.path);
      var path := CommonPath(k.path, k'.path);
      CommonPathMatches(k.path, k'.path);
      var o := OrderFrom(keys, k);
      var o' := OrderFrom(keys, k');
      assert FirstMatch(o, verb, path) != FirstMatch(o', verb, path);
    }
  }

  /** The whole resolution is then independent of the orders. */
  lemma ResolutionOrderIndependent(http: map<RouteKey, HttpRoute>, native: map<RouteKey, string>,
                                   ho: seq<RouteKey>, no: seq<RouteKey>, ho': seq<RouteKey>, no': seq<RouteKey>,
                                   verb: string, path: string)
    requires Order(ho, http.Keys) && Order(no, native.Keys) && Order(ho', http.Keys) && Order(no', native.Keys)
    requires NonOverlapping(http.Keys, verb) && NonOverlapping(native.Keys, verb)
    ensures Resolved(http, native, ho, no, verb, path) == Resolved(http, native, ho', no', verb, path)
  {
    OneCandidate(http.Keys, verb, ho, ho', path);
    OneCandidate(native.Keys, verb, no, no', path);
  }

  // ----- the allowed methods

  predicate Less(a: string, b: string) {
    b != "" && (a == "" || a[0] < b[0] || (a[0] == b[0] && Less(a[1..], b[1..])))
  }

  /** The order of texts: by the first character in which they differ, a text before its extensions. */
  lemma {:induction false} LessExactly(a: string, b: string)
    ensures Less(a, b) <==> exists i :: 0 <= i <= |a| && i < |b| && a[..i] == b[..i] && (i == |a| || a[i] < b[i])
  {
    if a == "" || b == "" {
      assert a == "" && b != "" ==> a[..0] == b[..0];
    } else {
      LessExactly(a[1..], b[1..]);
      if i :| 0 <= i <= |a| && i < |b| && a[..i] == b[..i] && (i == |a| || a[i] < b[i]) {
        if i > 0 {
          PrefixTail(a, b, i);
        }
      }
      if a[0] == b[0] {
        if i :| 0 <= i <= |a[1..]| && i < |b[1..]| && a[1..][..i] == b[1..][..i] && (i == |a[1..]| || a[1..][i] < b[1..][i]) {
          PrefixTail(a, b, i + 1);
        }
      } else if a[0] < b[0] {
        assert a[..0] == b[..0];
      }
    }
  }

  lemma PrefixTail(a: string, b: string, i: nat)
    requires 0 < i <= |a| && i <= |b|
    ensures a[..i] == b[..i] <==> a[0] == b[0] && a[1..][..i - 1] == b[1..][..i - 1]
  {
    assert a[..i] == [a[0]] + a[1..][..i - 1];
    assert b[..i] == [b[0]] + b[1..][..i - 1];
  }

  predicate Ascending(s: seq<string>) {
    forall i, j :: 0 <= i < j < |s| ==> Less(s[i], s[j])
  }

  predicate InOrder(s: seq<string>) {
    forall i, j :: 0 <= i < j < |s| ==> !Less(s[j], s[i])
  }

  lemma {:induction false} LessTransitive(a: string, b: string, c: string)
    ensures Less(a, b) && Less(b, c) ==> Less(a, c)
    ensures !Less(b, a) && !Less(c, b) ==> !Less(c, a)
  {
    if a == "" || b == "" || c == "" {
    } else {
      LessTransitive(a[1..], b[1..], c[1..]);
    }
  }

  lemma {:induction false} LessTotal(a: string, b: string)
    ensures !(Less(a, b) && Less(b, a)) && (!Less(a, b) && !Less(b, a) <==> a == b)
  {
    if a == "" || b == "" {
    } else {
      LessTotal(a[1..], b[1..]);
      assert a == [a[0]] + a[1..] && b == [b[0]] + b[1..];
    }
  }

  function Inserted(x: string, s: seq<string>): (r: seq<string>)
    requires InOrder(s)
    ensures InOrder(r) && multiset(r) == multiset(s) + multiset{x}
  {
    if s == [] then [x]
    else if Less(x, s[0]) then
      InsertFront(x, s);
      [x] + s
    else
      assert s == [s[0]] + s[1..];
      var rest := Inserted(x, s[1..]);
      InsertLater(x, s, rest);
      [s[0]] + rest
  }

  lemma InsertFront(x: string, s: seq<string>)
    requires InOrder(s) && s != [] && Less(x, s[0])
    ensures InOrder([x] + s)
  {
    forall j | 0 <= j < |s| ensures !Less(s[j], x) {
      LessTotal(x, s[0]);
      LessTransitive(x, s[0], s[j]);
    }
  }

  lemma InsertLater(x: string, s: seq<string>, rest: seq<string>)
    requires InOrder(s) && s != [] && !Less(x, s[0])
    requires InOrder(rest) && multiset(rest) == multiset(s[1..]) + multiset{x}
    ensures InOrder([s[0]] + rest)
  {
    forall y | y in rest ensures !Less(y, s[0]) {
      assert y in multiset(rest);
      if y != x {
        assert y in multiset(s[1..]);
        assert y in s[1..];
      }
    }
  }

  /** The standard library's sort. */
  function Sorted(s: seq<string>): (r: seq<string>)
    ensures InOrder(r) && multiset(r) == multiset(s)
    ensures forall m :: m in r <==> m in s
  {
    if s == [] then []
    else
      assert s == [s[0]] + s[1..];
      var r := Inserted(s[0], Sorted(s[1..]));
      assert forall m :: m in r <==> m in multiset(r);
      assert forall m :: m in s <==> m in multiset(s);
      r
  }

  /** The standard library's dedup: equal neighbours are merged. */
  function Deduplicated(s: seq<string>): (r: seq<string>)
    requires InOrder(s)
    ensures Ascending(r) && forall m :: m in r <==> m in s
  {
    if |s| < 2 then s
    else
      assert s == [s[0]] + s[1..];
      var rest := Deduplicated(s[1..]);
      if s[0] == s[1] then
        assert s[1] in s[1..];
        rest
      else
        DeduplicateFront(s, rest);
        [s[0]] + rest
  }

  lemma DeduplicateFront(s: seq<string>, rest: seq<string>)
    requires InOrder(s) && |s| >= 2 && s[0] != s[1]
    requires Ascending(rest) && forall m :: m in rest <==> m in s[1..]
    ensures Ascending([s[0]] + rest)
  {
    forall m | m in rest ensures Less(s[0], m) {
      var i :| 1 <= i < |s| && s[i] == m;
      LessTotal(s[0], s[1]);
      LessTotal(s[1], m);
      if m != s[1] {
        LessTransitive(s[0], s[1], m);
      }
    }
  }

  /** A method the list must offer. */
  ghost predicate Allowed(keys: set<RouteKey>, path: string, m: string) {
    Served(keys, m, path) || m == "OPTIONS" || (path == "/" && m == "GET")
  }

  /** The list: absent for an unknown path other than the root, otherwise in strictly ascending
      order and made of exactly the methods it must offer. */
  ghost predicate AllowedList(keys: set<RouteKey>, path: string, r: Option<seq<string>>) {
    && (r == None <==> path != "/" && !Known(keys, path))
    && (r.Some? ==> Ascending(r.value) && forall m :: m in r.value <==> Allowed(keys, path, m))
  }

  lemma AscendingTail(a: seq<string>)
    requires Ascending(a) && a != []
    ensures forall m :: m in a[1..] <==> m in a && m != a[0]
  {
    LessTotal(a[0], a[0]);
    assert a == [a[0]] + a[1..];
  }

  /** A list in ascending order is determined by its elements. */
  lemma {:induction false} AscendingUnique(a: seq<string>, b: seq<string>)
    requires Ascending(a) && Ascending(b) && forall m :: m in a <==> m in b
    ensures a == b
  {
    assert a != [] ==> a[0] in b;
    assert b != [] ==> b[0] in a;
    if a == [] {
    } else {
      var i :| 0 <= i < |b| && b[i] == a[0];
      var j :| 0 <= j < |a| && a[j] == b[0];
      LessTotal(a[0], b[0]);
      assert a[0] == b[0];
      AscendingTail(a);
      AscendingTail(b);
      AscendingUnique(a[1..], b[1..]);
      assert a == [a[0]] + a[1..] && b == [b[0]] + b[1..];
    }
  }

  /** So the orders of the tables leave no trace in the list. */
  lemma AllowedListUnique(keys: set<RouteKey>, path: string, r: Option<seq<string>>, r': Option<seq<string>>)
    requires AllowedList(keys, path, r) && AllowedList(keys, path, r')
    ensures r == r'
  {
    if r.Some? {
      AscendingUnique(r.value, r'.value);
    }
  }

  /** The list that goes with a 405 is not empty, and names the request's own method exactly for
      OPTIONS and for GET on the root. */
  lemma AllowedWith405(http: map<RouteKey, HttpRoute>, native: map<RouteKey, string>,
                       ho: seq<RouteKey>, no: seq<RouteKey>, verb: string, path: string, allowed: Option<seq<string>>)
    requires Order(ho, http.Keys) && Order(no, native.Keys)
    requires Resolved(http, native, ho, no, verb, path) == MethodNotAllowed
    requires AllowedList(http.Keys + native.Keys, path, allowed)
    ensures allowed.Some? && allowed.value != []
    ensures verb in allowed.value <==> verb == "OPTIONS" || (verb == "GET" && path == "/")
  {
    ResolutionExact(http, native, ho, no, verb, path);
    KnownUnion(http.Keys, native.Keys, path);
    assert "OPTIONS" in allowed.value;
  }

  // ----- the second resolution, in Julia

  /** The lookup with the path as it came: the exact key, then a scan in the dictionary's order. */
  function JuliaLookup(app: set<RouteKey>, order: seq<RouteKey>, verb: string, path: string): (r: Option<RouteKey>)
    ensures r.Some? ==> r.value in app || r.value in order
  {
    if RouteKey(verb, path) in app then Some(RouteKey(verb, path)) else FirstMatch(order, verb, path)
  }

  /** The parameters are those of the pattern that was chosen; a key found as it stands has none. */
  method FindHandler(app: map<RouteKey, nat>, order: seq<RouteKey>, verb: string, path: string)
    returns (handler: Option<nat>, params: map<string, string>)
    requires Order(order, app.Keys)
    ensures handler == (match JuliaLookup(app.Keys, order, verb, path) { case None => None case Some(k) => Some(app[k]) })
    ensures handler == None <==> !Served(app.Keys, verb, path)
    ensures handler == None || RouteKey(verb, path) in app ==> params == map[]
    ensures handler.Some? && RouteKey(verb, path) !in app ==>
              LastWins(params, ReadSegments(Segments(JuliaLookup(app.Keys, order, verb, path).value.path), Segments(path)))
  {
    FirstMatchServed(order, app.Keys, verb, path);
    if RouteKey(verb, path) in app {
      assert Serves(RouteKey(verb, path), verb, path);
      return Some(app[RouteKey(verb, path)]), map[];
    }
    for i := 0 to |order|
      invariant FirstMatch(order, verb, path) == FirstMatch(order[i..], verb, path)
    {
      assert order[i..][0] == order[i] && order[i..][1..] == order[i + 1..];
      if order[i].verb == verb {
        var fits := MatchDynamicPathJulia(order[i].path, path);
        if fits {
          params := ExtractPathParams(order[i].path, path);
          return Some(app[order[i]]), params;
        }
      }
    }
    assert order[|order|..] == [];
    return None, map[];
  }

  /** The keys register_http! makes. */
  predicate Registrable(k: RouteKey) {
    Upper(k.verb) == k.verb && k.verb != "" && ValidPath(k.path)
  }

  /** With the tables filled from one app, a verb and a path are served on one side exactly when they
      are on the other, whatever trailing slashes the patterns and the path have. */
  lemma ServedOnBothSides(app: set<RouteKey>, verb: string, path: string)
    requires forall k :: k in app ==> Registrable(k)
    ensures Served(RustKeys(app), verb, Normalized(path)) <==> Served(app, verb, path)
  {
    NormalizedSegments(path);
    forall k | k in app ensures Serves(RustKey(k), verb, Normalized(path)) <==> Serves(k, verb, path) {
      NormalizedSegments(k.path);
    }
    if k :| k in app && Serves(k, verb, path) {
      assert RustKey(k) in RustKeys(app);
    }
  }

  /** Whatever Rust resolves to a handler, Julia finds a handler for. The other way round, what Julia
      would find Rust resolves to a handler or a native route. */
  lemma RoutersAgree(app: map<RouteKey, nat>, http: map<RouteKey, HttpRoute>, native: map<RouteKey, string>,
                     ho: seq<RouteKey>, no: seq<RouteKey>, order: seq<RouteKey>, verb: string, path: string)
    requires forall k :: k in app ==> Registrable(k)
    requires http.Keys == RustKeys(app.Keys)
    requires Order(ho, http.Keys) && Order(no, native.Keys) && Order(order, app.Keys)
    ensures var r := Resolved(http, native, ho, no, verb, Normalized(path));
            && (r.Handler? ==> JuliaLookup(app.Keys, order, verb, path).Some?)
            && (JuliaLookup(app.Keys, order, verb, path).Some? ==> r.Handler? || r.Native?)
  {
    ServedOnBothSides(app.Keys, verb, path);
    ResolutionExact(http, native, ho, no, verb, Normalized(path));
    FirstMatchServed(order, app.Keys, verb, path);
    if RouteKey(verb, path) in app {
      assert Serves(RouteKey(verb, path), verb, path);
    }
  }

  /** When the app's patterns do not overlap, both sides mean the same route. */
  lemma RoutersPickSameRoute(app: map<RouteKey, nat>, http: map<RouteKey, HttpRoute>, native: map<RouteKey, string>,
                             ho: seq<RouteKey>, no: seq<RouteKey>, order: seq<RouteKey>, verb: string, path: string)
    requires forall k :: k in app ==> Registrable(k)
    requires http.Keys == RustKeys(app.Keys) && NonOverlapping(app.Keys, verb)
    requires Order(ho, http.Keys) && Order(no, native.Keys) && Order(order, app.Keys)
    requires Resolved(http, native, ho, no, verb, Normalized(path)).Handler?
    ensures JuliaLookup(app.Keys, order, verb, path).Some?
    ensures RustKey(JuliaLookup(app.Keys, order, verb, path).value)
         == RouteKey(verb, Resolved(http, native, ho, no, verb, Normalized(path)).pattern)
  {
    RoutersAgree(app, http, native, ho, no, order, verb, path);
    ResolutionExact(http, native, ho, no, verb, Normalized(path));
    var pattern := Resolved(http, native, ho, no, verb, Normalized(path)).pattern;
    var k :| k in app && RustKey(k) == RouteKey(verb, pattern);
    var j := JuliaLookup(app.Keys, order, verb, path).value;
    NormalizedSegments(path);
    NormalizedSegments(k.path);
    assert Serves(j, verb, path);
    assert Matches(k.path, path) && Matches(j.path, path);
    OverlapExact(k.path, j.path);
    assert k == j;
  }

  /** After a stop no handler is resolved any more, and exactly the native routes still are. */
  lemma NativeRoutesSurviveStop(native: map<RouteKey, string>, no: seq<RouteKey>, verb: string, path: string)
    requires Order(no, native.Keys)
    ensures var r := Resolved(map[], native, [], no, verb, path);
            !r.Handler? && (r.Native? <==> Served(native.Keys, verb, path))
  {
    ResolutionExact(map[], native, [], no, verb, path);
  }
}
