/** When the whole resolution of a method does not depend on the order in which the two tables are
    scanned. */
module RouteOrders {
  import opened Basics
  import opened Text
  import opened RoutePatterns
  import opened Routers

  /** The pattern ns takes every path that fits cs. */
  predicate Covers(ns: seq<string>, cs: seq<string>) {
    |ns| == |cs| && forall i :: 0 <= i < |ns| ==> Dynamic(ns[i]) || ns[i] == cs[i]
  }

  predicate TakesCommon(n: RouteKey, k: RouteKey, k': RouteKey, verb: string)
    requires Overlap(k.path, k'.path)
  {
    n.verb == verb && Covers(Segments(n.path), CommonSegments(Segments(k.path), Segments(k'.path)))
  }

  /** Wherever two handler patterns of the method overlap, one native route takes all they have in common. */
  ghost predicate Settled(handlers: set<RouteKey>, natives: set<RouteKey>, verb: string) {
    forall k, k' :: k in handlers && k' in handlers && k != k' && k.verb == k'.verb == verb && Overlap(k.path, k'.path) ==>
      exists n :: n in natives && TakesCommon(n, k, k', verb)
  }

  ghost predicate AnyOrder(http: map<RouteKey, HttpRoute>, native: map<RouteKey, string>, verb: string) {
    forall ho, no, ho', no', path ::
      Order(ho, http.Keys) && Order(no, native.Keys) && Order(ho', http.Keys) && Order(no', native.Keys) ==>
        Resolved(http, native, ho, no, verb, path) == Resolved(http, native, ho', no', verb, path)
  }

  lemma CoverTakes(n: string, p: string, q: string, a: string)
    requires Overlap(p, q) && Covers(Segments(n), CommonSegments(Segments(p), Segments(q)))
    requires Matches(p, a) && Matches(q, a)
    ensures Matches(n, a)
  {
    var ns, ps, qs, actual := Segments(n), Segments(p), Segments(q), Segments(a);
    forall i | 0 <= i < |ns| ensures SegmentMatches(ns[i], actual[i]) {
      assert SegmentMatches(ps[i], actual[i]) && SegmentMatches(qs[i], actual[i]);
    }
  }

  lemma {:induction false} PathsBelow(keys: set<RouteKey>) returns (n: nat)
    ensures n > 0 && forall k :: k in keys ==> |k.path| < n
  {
    if keys == {} {
      n := 1;
    } else {
      var k :| k in keys;
      var m := PathsBelow(keys - {k});
      n := if m <= |k.path| then |k.path| + 1 else m;
    }
  }

  lemma {:induction false} SplitShort(s: string, sep: string)
    requires 0 < |sep|
    ensures forall p :: p in Split(s, sep) ==> |p| <= |s|
    decreases |s|
  {
    match Find(s, sep, 0)
    case None =>
    case Some(i) => SplitShort(s[i + |sep|..], sep);
  }

  function Slashes(n: nat): (s: string)
    ensures |s| == n
  {
    if n == 0 then "" else "/" + Slashes(n - 1)
  }

  lemma {:induction false} SlashesIgnored(n: nat, a: string)
    ensures Segments(Slashes(n) + a) == Segments(a)
  {
    if n == 0 {
      assert Slashes(0) + a == a;
    } else {
      var rest := Slashes(n - 1) + a;
      assert Slashes(n) + a == "" + "/" + rest;
      SegmentsConcat("", rest);
      NoSegments();
      SlashesIgnored(n - 1, a);
    }
  }

  /** A path that both patterns fit, that is no key itself, and that no native route takes unless it
      takes all they have in common. */
  lemma OpenPath(k: RouteKey, k': RouteKey, keys: set<RouteKey>, natives: set<RouteKey>, verb: string) returns (a: string)
    requires Overlap(k.path, k'.path) && forall n :: n in natives ==> !TakesCommon(n, k, k', verb)
    ensures Matches(k.path, a) && Matches(k'.path, a)
    ensures RouteKey(verb, a) !in keys && !Served(natives, verb, a)
    ensures a != "" && forall k :: k in keys ==> |k.path| < |a|
  {
    var bound := PathsBelow(keys + natives);
    var cs, unused := CommonSegments(Segments(k.path), Segments(k'.path)), seq(bound, _ => 'x');
    var segments := seq(|cs|, i requires 0 <= i < |cs| => if Dynamic(cs[i]) then unused else cs[i]);
    SegmentsClean(k.path);
    SegmentsClean(k'.path);
    SegmentsJoin(segments);
    a := Slashes(bound) + Join(segments, "/");
    SlashesIgnored(bound, Join(segments, "/"));
    assert |RouteKey(verb, a).path| >= bound;
    forall n | n in natives ensures !Serves(n, verb, a) {
      if Serves(n, verb, a) {
        FreshMatched(n.path, cs, segments, unused);
      }
    }
  }

  /** A literal that occurs in no pattern is matched by parameters only. */
  lemma FreshMatched(n: string, cs: seq<string>, segments: seq<string>, unused: string)
    requires |segments| == |cs| && |n| < |unused|
    requires forall i :: 0 <= i < |cs| ==> segments[i] == if Dynamic(cs[i]) then unused else cs[i]
    requires SegmentsMatch(Segments(n), segments)
    ensures Covers(Segments(n), cs)
  {
    var ns := Segments(n);
    SplitShort(n, "/");
    forall i | 0 <= i < |ns| ensures Dynamic(ns[i]) || ns[i] == cs[i] {
      assert ns[i] in Segments(n) && SegmentMatches(ns[i], segments[i]);
    }
  }

  lemma SettledSuffices(http: map<RouteKey, HttpRoute>, native: map<RouteKey, string>,
                        ho: seq<RouteKey>, no: seq<RouteKey>, ho': seq<RouteKey>, no': seq<RouteKey>,
                        verb: string, path: string)
    requires NonOverlapping(native.Keys, verb) && Settled(http.Keys, native.Keys, verb)
    requires Order(ho, http.Keys) && Order(no, native.Keys) && Order(ho', http.Keys) && Order(no', native.Keys)
    ensures Resolved(http, native, ho, no, verb, path) == Resolved(http, native, ho', no', verb, path)
  {
    var h, h' := FirstMatch(ho, verb, path), FirstMatch(ho', verb, path);
    OneCandidate(native.Keys, verb, no, no', path);
    FirstMatchServed(ho, http.Keys, verb, path);
    FirstMatchServed(ho', http.Keys, verb, path);
    FirstMatchServed(no, native.Keys, verb, path);
    if h.Some? && h != h' {
      OverlapExact(h.value.path, h'.value.path);
      var n :| n in native.Keys && TakesCommon(n, h.value, h'.value, verb);
      CoverTakes(n.path, h.value.path, h'.value.path, path);
      assert Serves(n, verb, path);
    }
  }

  lemma HandlersDiffer(http: map<RouteKey, HttpRoute>, native: map<RouteKey, string>, verb: string, k: RouteKey, k': RouteKey)
    requires k in http && k' in http && k != k' && k.verb == k'.verb == verb && Overlap(k.path, k'.path)
    requires forall n :: n in native.Keys ==> !TakesCommon(n, k, k', verb)
    ensures !AnyOrder(http, native, verb)
  {
    var a := OpenPath(k, k', http.Keys + native.Keys, native.Keys, verb);
    var no := SomeOrder(native.Keys);
    var ho := OrderFrom(http.Keys, k);
    var ho' := OrderFrom(http.Keys, k');
    FirstMatchServed(no, native.Keys, verb, a);
    assert RouteKey(verb, a) !in http && RouteKey(verb, a) !in native;
    assert Resolved(http, native, ho, no, verb, a) != Resolved(http, native, ho', no, verb, a);
  }

  lemma NativesDiffer(http: map<RouteKey, HttpRoute>, native: map<RouteKey, string>, verb: string, k: RouteKey, k': RouteKey)
    requires k in native && k' in native && k != k' && k.verb == k'.verb == verb && Overlap(k.path, k'.path)
    ensures !AnyOrder(http, native, verb)
  {
    var a := OpenPath(k, k', http.Keys + native.Keys, {}, verb);
    var ho := SomeOrder(http.Keys);
    var no := OrderFrom(native.Keys, k);
    var no' := OrderFrom(native.Keys, k');
    assert RouteKey(verb, a) !in http && RouteKey(verb, a) !in native;
    assert Resolved(http, native, ho, no, verb, a) != Resolved(http, native, ho, no', verb, a);
  }

  /** The resolution is the same in every order of both tables, for every path, exactly when no two
      native patterns of the method overlap, and wherever two of its handler patterns do, a native
      route takes all the paths they have in common. */
  lemma ResolutionOrderExact(http: map<RouteKey, HttpRoute>, native: map<RouteKey, string>, verb: string)
    ensures AnyOrder(http, native, verb) <==> NonOverlapping(native.Keys, verb) && Settled(http.Keys, native.Keys, verb)
  {
    if !NonOverlapping(native.Keys, verb) {
      var k, k' :| k in native.Keys && k' in native.Keys && k != k' && k.verb == k'.verb == verb && Overlap(k.path, k'.path);
      NativesDiffer(http, native, verb, k, k');
    } else if !Settled(http.Keys, native.Keys, verb) {
      var k, k' :| k in http.Keys && k' in http.Keys && k != k' && k.verb == k'.verb == verb && Overlap(k.path, k'.path)
                   && forall n :: n in native.Keys ==> !TakesCommon(n, k, k', verb);
      HandlersDiffer(http, native, verb, k, k');
    } else {
      forall ho, no, ho', no', path
        | Order(ho, http.Keys) && Order(no, native.Keys) && Order(ho', http.Keys) && Order(no', native.Keys)
        ensures Resolved(http, native, ho, no, verb, path) == Resolved(http, native, ho', no', verb, path)
      {
        SettledSuffices(http, native, ho, no, ho', no', verb, path);
      }
    }
  }
}
