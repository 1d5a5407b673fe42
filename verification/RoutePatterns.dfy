/** Route patterns: paths whose segments may be parameters, written with a colon. Both sides of the
    interface match a pattern segment by segment and ignore empty segments. */
module RoutePatterns {
  import opened Basics
  import opened Text
  import opened Dictionaries

  /** The paths that routes can be registered under. */
  predicate ValidPath(path: string) {
    path != "" && path[0] == '/' && '*' !in path
  }

  function Segments(path: string): (segments: seq<string>)
    ensures "" !in segments
  {
    NonEmpty(Split(path, "/"))
  }

  predicate Dynamic(segment: string) {
    segment != "" && segment[0] == ':'
  }

  predicate SegmentMatches(p: string, a: string) {
    Dynamic(p) || p == a
  }

  predicate SegmentsMatch(ps: seq<string>, actual: seq<string>) {
    |ps| == |actual| && forall i :: 0 <= i < |ps| ==> SegmentMatches(ps[i], actual[i])
  }

  /** The path fits the pattern. */
  predicate Matches(pattern: string, actual: string) {
    SegmentsMatch(Segments(pattern), Segments(actual))
  }

  /** The Rust matcher: two iterators advanced together. */
  method MatchDynamicPath(pattern: string, actual: string) returns (r: bool)
    ensures r <==> Matches(pattern, actual)
  {
    ghost var ps, actuals := Segments(pattern), Segments(actual);
    var pParts, aParts := Segments(pattern), Segments(actual);
    ghost var n := 0;
    while true
      invariant n <= |ps| && n <= |actuals| && pParts == ps[n..] && aParts == actuals[n..]
      invariant forall i :: 0 <= i < n ==> SegmentMatches(ps[i], actuals[i])
      decreases |pParts|
    {
      if pParts == [] && aParts == [] {
        return true;
      } else if pParts != [] && aParts != [] {
        var p, a := pParts[0], aParts[0];
        pParts, aParts := pParts[1..], aParts[1..];
        if p[0] != ':' && p != a {
          assert !SegmentMatches(ps[n], actuals[n]);
          return false;
        }
        n := n + 1;
      } else {
        return false;
      }
    }
  }

  /** The Julia matcher: positions instead of iterators, the same answer. */
  method MatchDynamicPathJulia(pattern: string, actual: string) returns (r: bool)
    ensures r <==> Matches(pattern, actual)
  {
    var ps, actuals := Segments(pattern), Segments(actual);
    var p, a := 0, 0;
    while true
      invariant p == a && p <= |ps| && a <= |actuals|
      invariant forall i :: 0 <= i < p ==> SegmentMatches(ps[i], actuals[i])
      decreases |ps| - p
    {
      if p == |ps| && a == |actuals| {
        return true;
      } else if p == |ps| || a == |actuals| {
        return false;
      }
      if ps[p][0] != ':' && ps[p] != actuals[a] {
        assert !SegmentMatches(ps[p], actuals[p]);
        return false;
      }
      p, a := p + 1, a + 1;
    }
  }

  /** One trailing slash is dropped, except from the root. */
  function Normalized(path: string): string {
    if |path| > 1 && path[|path| - 1] == '/' then path[..|path| - 1] else path
  }

  lemma SegmentsConcat(a: string, b: string)
    ensures Segments(a + "/" + b) == Segments(a) + Segments(b)
  {
    SplitConcat(a, b, "/");
    NonEmptyConcat(Split(a, "/"), Split(b, "/"));
  }

  lemma NoSegments()
    ensures Segments("") == []
  {
    assert Find("", "/", 0) == None;
  }

  /** Normalising changes no segment. */
  lemma NormalizedSegments(path: string)
    ensures Segments(Normalized(path)) == Segments(path)
  {
    if |path| > 1 && path[|path| - 1] == '/' {
      var init := path[..|path| - 1];
      assert path == init + "/" + "";
      SegmentsConcat(init, "");
      NoSegments();
    }
  }

  lemma SegmentsClean(path: string)
    ensures forall s :: s in Segments(path) ==> s != "" && '/' !in s
  {
    SplitClean(path, "/");
    forall s | s in Segments(path) ensures '/' !in s {
      FindChar(s, '/');
    }
  }

  /** Segments that can stand in a path. */
  predicate ProperSegments(segments: seq<string>) {
    forall s :: s in segments ==> s != "" && '/' !in s
  }

  lemma SegmentsJoin(segments: seq<string>)
    requires ProperSegments(segments)
    ensures Segments(Join(segments, "/")) == segments
  {
    if segments == [] {
      NoSegments();
    } else {
      forall s | s in segments ensures Find(s, "/", 0) == None {
        FindChar(s, '/');
      }
      SplitJoin(segments, "/");
      NonEmptyIdentity(segments);
    }
  }

  // ----- overlapping patterns

  /** No position where both patterns are literal and differ. */
  predicate Compatible(ps: seq<string>, qs: seq<string>) {
    |ps| == |qs| && forall i :: 0 <= i < |ps| ==> Dynamic(ps[i]) || Dynamic(qs[i]) || ps[i] == qs[i]
  }

  predicate Overlap(p: string, q: string) {
    Compatible(Segments(p), Segments(q))
  }

  /** What two patterns have in common: the literal where one of them has one. */
  function CommonSegments(ps: seq<string>, qs: seq<string>): (r: seq<string>)
    requires |ps| == |qs|
    ensures |r| == |ps| && forall i :: 0 <= i < |r| ==> r[i] == if Dynamic(ps[i]) then qs[i] else ps[i]
  {
    seq(|ps|, i requires 0 <= i < |ps| => if Dynamic(ps[i]) then qs[i] else ps[i])
  }

  /** A path both patterns match, for patterns that overlap. */
  function CommonPath(p: string, q: string): string
    requires Overlap(p, q)
  {
    Join(CommonSegments(Segments(p), Segments(q)), "/")
  }

  lemma CommonPathMatches(p: string, q: string)
    requires Overlap(p, q)
    ensures Matches(p, CommonPath(p, q)) && Matches(q, CommonPath(p, q))
  {
    SegmentsClean(p);
    SegmentsClean(q);
    SegmentsJoin(CommonSegments(Segments(p), Segments(q)));
  }

  /** Two patterns have a path in common exactly when no literal keeps them apart. */
  lemma OverlapExact(p: string, q: string)
    ensures Overlap(p, q) <==> exists a :: Matches(p, a) && Matches(q, a)
  {
    if Overlap(p, q) {
      CommonPathMatches(p, q);
    }
    if a :| Matches(p, a) && Matches(q, a) {
      var ps, qs, actual := Segments(p), Segments(q), Segments(a);
      forall i | 0 <= i < |ps| ensures Dynamic(ps[i]) || Dynamic(qs[i]) || ps[i] == qs[i] {
        assert SegmentMatches(ps[i], actual[i]) && SegmentMatches(qs[i], actual[i]);
      }
    }
  }

  // ----- path parameters

  /** What one position contributes: a parameter's name is its segment without the colon. */
  function ReadSegment(p: string, a: string): Entry {
    if Dynamic(p) then Pair(p[1..], a) else Skipped
  }

  function ReadSegments(ps: seq<string>, actual: seq<string>): (r: seq<Entry>)
    ensures |r| == (if |ps| < |actual| then |ps| else |actual|)
    ensures forall i :: 0 <= i < |r| ==> r[i] == ReadSegment(ps[i], actual[i])
  {
    seq(if |ps| < |actual| then |ps| else |actual|,
        i requires 0 <= i < |ps| && i < |actual| => ReadSegment(ps[i], actual[i]))
  }

  lemma ReadOne(ps: seq<string>, actual: seq<string>, a: nat, params: map<string, string>)
    requires a < |ps| && a < |actual| && Collected(ReadSegments(ps, actual)[..a]) == Some(params)
    ensures Collected(ReadSegments(ps, actual)[..a + 1])
         == Some(if Dynamic(ps[a]) then params[ps[a][1..] := actual[a]] else params)
  {
    CollectedStep(ReadSegments(ps, actual), a);
  }

  /** The extraction loop; it stops where the shorter of the two ends. */
  method ExtractPathParams(pattern: string, actual: string) returns (params: map<string, string>)
    ensures Collected(ReadSegments(Segments(pattern), Segments(actual))) == Some(params)
    ensures LastWins(params, ReadSegments(Segments(pattern), Segments(actual)))
  {
    var ps, actuals := Segments(pattern), Segments(actual);
    ghost var read := ReadSegments(ps, actuals);
    CollectedMeaning(read);
    params := map[];
    var a := 0;
    while a < |ps|
      invariant a <= |read| && Some(params) == Collected(read[..a])
    {
      if a == |actuals| {
        break;
      }
      ReadOne(ps, actuals, a, params);
      if ps[a][0] == ':' {
        params := params[ps[a][1..] := actuals[a]];
      }
      a := a + 1;
    }
    assert read[..a] == read;
  }

  /** The segments of a pattern with each parameter replaced by its value. */
  function Substituted(ps: seq<string>, params: map<string, string>): seq<string>
    requires forall p :: p in ps && Dynamic(p) ==> p[1..] in params
  {
    seq(|ps|, i requires 0 <= i < |ps| => if Dynamic(ps[i]) then params[ps[i][1..]] else ps[i])
  }

  /** Wherever a name comes twice in the pattern, the path has the same value. */
  predicate Consistent(ps: seq<string>, actual: seq<string>)
    requires |ps| == |actual|
  {
    forall i, j :: 0 <= i < j < |ps| && Dynamic(ps[i]) && ps[i] == ps[j] ==> actual[i] == actual[j]
  }

  predicate IsParam(ps: seq<string>, i: int, name: string) {
    0 <= i < |ps| && Dynamic(ps[i]) && ps[i][1..] == name
  }

  /** A parameter has the value found at its last position. */
  lemma ParamAt(ps: seq<string>, actual: seq<string>, params: map<string, string>, i: nat)
    requires |ps| == |actual| && LastWins(params, ReadSegments(ps, actual))
    requires i < |ps| && Dynamic(ps[i])
    ensures ps[i][1..] in params
    ensures exists l :: i <= l < |ps| && ps[l] == ps[i] && params[ps[i][1..]] == actual[l]
  {
    var read := ReadSegments(ps, actual);
    assert read[i] == Pair(ps[i][1..], actual[i]);
    var l :| LastWith(read, l, ps[i][1..]) && params[ps[i][1..]] == read[l].value;
    assert ps[l] == [':'] + ps[l][1..] && ps[i] == [':'] + ps[i][1..];
  }

  lemma ParamSource(ps: seq<string>, actual: seq<string>, params: map<string, string>, k: string)
    requires |ps| == |actual| && LastWins(params, ReadSegments(ps, actual)) && k in params
    ensures exists i :: IsParam(ps, i, k) && params[k] == actual[i]
  {
    var read := ReadSegments(ps, actual);
    var l :| LastWith(read, l, k) && params[k] == read[l].value;
    assert IsParam(ps, l, k);
  }

  lemma SubstitutedAt(ps: seq<string>, actual: seq<string>, params: map<string, string>, i: nat)
    requires SegmentsMatch(ps, actual) && LastWins(params, ReadSegments(ps, actual)) && i < |ps|
    ensures Dynamic(ps[i]) ==> ps[i][1..] in params
    ensures Consistent(ps, actual) ==> (if Dynamic(ps[i]) then params[ps[i][1..]] else ps[i]) == actual[i]
  {
    if Dynamic(ps[i]) {
      ParamAt(ps, actual, params, i);
    } else {
      assert SegmentMatches(ps[i], actual[i]);
    }
  }

  lemma SubstitutionExact(ps: seq<string>, actual: seq<string>, params: map<string, string>)
    requires SegmentsMatch(ps, actual) && LastWins(params, ReadSegments(ps, actual))
    ensures forall p :: p in ps && Dynamic(p) ==> p[1..] in params
    ensures Substituted(ps, params) == actual <==> Consistent(ps, actual)
  {
    forall p | p in ps && Dynamic(p) ensures p[1..] in params {
      var i :| 0 <= i < |ps| && ps[i] == p;
      SubstitutedAt(ps, actual, params, i);
    }
    if Consistent(ps, actual) {
      forall i | 0 <= i < |ps| ensures Substituted(ps, params)[i] == actual[i] {
        SubstitutedAt(ps, actual, params, i);
      }
    } else {
      var i, j :| 0 <= i < j < |ps| && Dynamic(ps[i]) && ps[i] == ps[j] && actual[i] != actual[j];
      assert Substituted(ps, params)[i] == Substituted(ps, params)[j];
    }
  }

  /** The parameters of a path that matches are exactly the names of the pattern, and putting them
      back gives the path's segments exactly when repeated names have equal values; so it does
      whenever the names are distinct. */
  lemma ParamsRebuildPath(pattern: string, path: string, params: map<string, string>)
    requires Matches(pattern, path) && LastWins(params, ReadSegments(Segments(pattern), Segments(path)))
    ensures forall k :: k in params <==> exists i :: IsParam(Segments(pattern), i, k)
    ensures forall p :: p in Segments(pattern) && Dynamic(p) ==> p[1..] in params
    ensures Substituted(Segments(pattern), params) == Segments(path) <==> Consistent(Segments(pattern), Segments(path))
  {
    var ps, actual := Segments(pattern), Segments(path);
    SubstitutionExact(ps, actual, params);
    forall k | k in params ensures exists i :: IsParam(ps, i, k) {
      ParamSource(ps, actual, params, k);
    }
  }

  /** The path _to_route_spec makes of a base and parameter names. */
  function DynamicPath(base: string, names: seq<string>): string {
    if names == [] then base
    else base + "/" + Join(seq(|names|, i requires 0 <= i < |names| => ":" + names[i]), "/")
  }

  /** The base followed by values. */
  function FilledPath(base: string, values: seq<string>): string {
    if values == [] then base else base + "/" + Join(values, "/")
  }

  lemma PathSegments(base: string, names: seq<string>, values: seq<string>)
    requires forall n :: n in names ==> '/' !in n
    requires ProperSegments(values) && |values| == |names|
    ensures Segments(FilledPath(base, values)) == Segments(base) + values
    ensures Segments(DynamicPath(base, names))
         == Segments(base) + seq(|names|, i requires 0 <= i < |names| => ":" + names[i])
  {
    if names != [] {
      var colons := seq(|names|, i requires 0 <= i < |names| => ":" + names[i]);
      SegmentsConcat(base, Join(values, "/"));
      SegmentsConcat(base, Join(colons, "/"));
      SegmentsJoin(values);
      SegmentsJoin(colons);
    }
  }

  /** Filling a declared route with values gives a path that matches it and from which every
      declared parameter is read back. */
  lemma FilledRouteReadsBack(base: string, names: seq<string>, values: seq<string>, params: map<string, string>)
    requires forall n :: n in names ==> '/' !in n
    requires forall i, j :: 0 <= i < j < |names| ==> names[i] != names[j]
    requires ProperSegments(values) && |values| == |names|
    requires LastWins(params, ReadSegments(Segments(DynamicPath(base, names)), Segments(FilledPath(base, values))))
    ensures Matches(DynamicPath(base, names), FilledPath(base, values))
    ensures forall i :: 0 <= i < |names| ==> names[i] in params && params[names[i]] == values[i]
    ensures forall k :: k in params ==> k in names || exists s :: s in Segments(base) && Dynamic(s) && s[1..] == k
  {
    PathSegments(base, names, values);
    var colons := seq(|names|, i requires 0 <= i < |names| => ":" + names[i]);
    FilledSegments(Segments(base), names, values, colons, params);
  }

  lemma FilledParam(b: seq<string>, names: seq<string>, values: seq<string>, colons: seq<string>,
                    params: map<string, string>, i: nat)
    requires |values| == |names| == |colons| && forall i :: 0 <= i < |names| ==> colons[i] == ":" + names[i]
    requires forall i, j :: 0 <= i < j < |names| ==> names[i] != names[j]
    requires LastWins(params, ReadSegments(b + colons, b + values))
    requires i < |names|
    ensures names[i] in params && params[names[i]] == values[i]
  {
    var ps, actual := b + colons, b + values;
    assert ps[|b| + i] == colons[i] && colons[i][1..] == names[i];
    ParamAt(ps, actual, params, |b| + i);
    var l :| |b| + i <= l < |ps| && ps[l] == ps[|b| + i] && params[names[i]] == actual[l];
    assert ps[l] == colons[l - |b|] && colons[l - |b|][1..] == names[l - |b|];
  }

  lemma FilledSegments(b: seq<string>, names: seq<string>, values: seq<string>, colons: seq<string>, params: map<string, string>)
    requires |values| == |names| == |colons| && forall i :: 0 <= i < |names| ==> colons[i] == ":" + names[i]
    requires forall i, j :: 0 <= i < j < |names| ==> names[i] != names[j]
    requires LastWins(params, ReadSegments(b + colons, b + values))
    ensures SegmentsMatch(b + colons, b + values)
    ensures forall i :: 0 <= i < |names| ==> names[i] in params && params[names[i]] == values[i]
    ensures forall k :: k in params ==> k in names || exists s :: s in b && Dynamic(s) && s[1..] == k
  {
    var ps, actual := b + colons, b + values;
    assert forall i :: 0 <= i < |names| ==> ps[|b| + i] == colons[i] && colons[i][1..] == names[i];
    forall i | 0 <= i < |names| ensures names[i] in params && params[names[i]] == values[i] {
      FilledParam(b, names, values, colons, params, i);
    }
    forall k | k in params ensures k in names || exists s :: s in b && Dynamic(s) && s[1..] == k {
      ParamSource(ps, actual, params, k);
      var i :| IsParam(ps, i, k) && params[k] == actual[i];
      if i < |b| {
        assert b[i] in b;
      } else {
        assert ps[|b| + (i - |b|)] == colons[i - |b|];
      }
    }
  }

  /** Where a name comes twice and the values differ, substituting back gives another path: with the
      pattern /:a/:a and the path /1/2, say. */
  lemma RepeatedNameLosesValue(name: string, first: string, second: string, params: map<string, string>)
    requires '/' !in name && ProperSegments([first, second]) && first != second
    requires var pattern, path := DynamicPath("", [name, name]), FilledPath("", [first, second]);
             LastWins(params, ReadSegments(Segments(pattern), Segments(path)))
    ensures var pattern, path := DynamicPath("", [name, name]), FilledPath("", [first, second]);
            && pattern == "/:" + name + "/:" + name && path == "/" + first + "/" + second
            && Matches(pattern, path)
            && (forall p :: p in Segments(pattern) && Dynamic(p) ==> p[1..] in params)
            && Substituted(Segments(pattern), params) != Segments(path)
  {
    var pattern, path := DynamicPath("", [name, name]), FilledPath("", [first, second]);
    RepeatedPattern(name);
    TwoSegments(first, second);
    ParamsRebuildPath(pattern, path, params);
  }

  lemma RepeatedPattern(name: string)
    requires '/' !in name
    ensures DynamicPath("", [name, name]) == "/:" + name + "/:" + name
    ensures Segments(DynamicPath("", [name, name])) == [":" + name, ":" + name]
  {
    var names := [name, name];
    TwoSegments(":" + name, ":" + name);
    assert seq(|names|, i requires 0 <= i < |names| => ":" + names[i]) == [":" + name, ":" + name];
    assert "/" + (":" + name) + "/" + (":" + name) == "/:" + name + "/:" + name;
  }

  lemma TwoSegments(a: string, b: string)
    requires ProperSegments([a, b])
    ensures "" + "/" + Join([a, b], "/") == "/" + a + "/" + b
    ensures Segments("" + "/" + Join([a, b], "/")) == [a, b]
  {
    SegmentsConcat("", Join([a, b], "/"));
    NoSegments();
    SegmentsJoin([a, b]);
  }

}
