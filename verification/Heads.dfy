/** What request heads mean, said on the texts they are put together from. */
module Heads {
  import opened Basics
  import opened Text
  import opened Dictionaries
  import opened RequestHead
  import PercentCoding
  import RequestReader
  import Connections

  // ----- UTF-8

  predicate Scalar(cp: int) {
    0 <= cp < 0x110000 && !(0xD800 <= cp < 0xE000)
  }

  /** The bytes of one character (section 3 of RFC 3629). */
  function EncodePoint(cp: int): string
    requires Scalar(cp)
  {
    if cp < 0x80 then [cp as char]
    else if cp < 0x800 then [(0xC0 + cp / 64) as char, (0x80 + cp % 64) as char]
    else if cp < 0x10000 then
      [(0xE0 + cp / 4096) as char, (0x80 + cp / 64 % 64) as char, (0x80 + cp % 64) as char]
    else
      [(0xF0 + cp / 262144) as char, (0x80 + cp / 4096 % 64) as char, (0x80 + cp / 64 % 64) as char, (0x80 + cp % 64) as char]
  }

  function EncodePoints(cps: seq<int>): string
    requires forall i :: 0 <= i < |cps| ==> Scalar(cps[i])
  {
    if cps == [] then "" else EncodePoint(cps[0]) + EncodePoints(cps[1..])
  }

  lemma TwoBytes(b: int, c: int) returns (cp: int)
    requires 0xC2 <= b <= 0xDF && 0x80 <= c <= 0xBF
    ensures 0x80 <= cp < 0x800 && 0xC0 + cp / 64 == b && 0x80 + cp % 64 == c
  {
    cp := (b - 0xC0) * 64 + (c - 0x80);
  }

  lemma ThreeBytes(b: int, c: int, d: int) returns (cp: int)
    requires 0xE0 <= b <= 0xEF && 0x80 <= c <= 0xBF && 0x80 <= d <= 0xBF
    requires (b == 0xE0 ==> c >= 0xA0) && (b == 0xED ==> c <= 0x9F)
    ensures 0x800 <= cp < 0x10000 && Scalar(cp)
    ensures 0xE0 + cp / 4096 == b && 0x80 + cp / 64 % 64 == c && 0x80 + cp % 64 == d
  {
    var high := (b - 0xE0) * 64 + (c - 0x80);
    cp := high * 64 + (d - 0x80);
    assert cp / 64 == high && cp / 4096 == b - 0xE0;
  }

  lemma FourBytes(b: int, c: int, d: int, e: int) returns (cp: int)
    requires 0xF0 <= b <= 0xF4 && 0x80 <= c <= 0xBF && 0x80 <= d <= 0xBF && 0x80 <= e <= 0xBF
    requires (b == 0xF0 ==> c >= 0x90) && (b == 0xF4 ==> c <= 0x8F)
    ensures 0x10000 <= cp < 0x110000
    ensures 0xF0 + cp / 262144 == b && 0x80 + cp / 4096 % 64 == c && 0x80 + cp / 64 % 64 == d && 0x80 + cp % 64 == e
  {
    var top := (b - 0xF0) * 64 + (c - 0x80);
    var high := top * 64 + (d - 0x80);
    cp := high * 64 + (e - 0x80);
    assert cp / 64 == high && cp / 4096 == top && cp / 262144 == b - 0xF0;
  }

  lemma WidthPoint(s: string) returns (cp: int)
    requires s != "" && Utf8Width(s) > 0
    ensures Scalar(cp) && s[..Utf8Width(s)] == EncodePoint(cp)
  {
    var b := s[0] as int;
    var w := Utf8Width(s);
    if w == 1 {
      cp := b;
    } else if w == 2 {
      cp := TwoBytes(b, s[1] as int);
    } else if w == 3 {
      cp := ThreeBytes(b, s[1] as int, s[2] as int);
    } else {
      cp := FourBytes(b, s[1] as int, s[2] as int, s[3] as int);
    }
  }

  lemma {:induction false} PointsAreUtf8(cps: seq<int>)
    requires forall i :: 0 <= i < |cps| ==> Scalar(cps[i])
    ensures Utf8(EncodePoints(cps))
  {
    if cps == [] {
    } else {
      var rest := EncodePoints(cps[1..]);
      PointsAreUtf8(cps[1..]);
      assert (EncodePoint(cps[0]) + rest)[|EncodePoint(cps[0])|..] == rest;
    }
  }

  lemma {:induction false} Utf8Points(s: string) returns (cps: seq<int>)
    requires Utf8(s)
    ensures (forall i :: 0 <= i < |cps| ==> Scalar(cps[i])) && EncodePoints(cps) == s
    decreases |s|
  {
    if s == "" {
      cps := [];
    } else {
      var w := Utf8Width(s);
      var cp := WidthPoint(s);
      var rest := Utf8Points(s[w..]);
      cps := [cp] + rest;
      assert cps[1..] == rest && s == s[..w] + s[w..];
    }
  }

  /** The test accepts exactly the encodings of sequences of characters. */
  lemma Utf8Exact(s: string)
    ensures Utf8(s) <==> exists cps: seq<int> :: (forall i :: 0 <= i < |cps| ==> Scalar(cps[i])) && EncodePoints(cps) == s
  {
    if Utf8(s) {
      var cps := Utf8Points(s);
    }
    if cps: seq<int> :| (forall i :: 0 <= i < |cps| ==> Scalar(cps[i])) && EncodePoints(cps) == s {
      PointsAreUtf8(cps);
    }
  }

  // ----- lists in header values

  /** The parts of a text at a character: what stands between two of it, or at an end. */
  predicate PartAt(s: string, c: char, a: string, p: string, b: string) {
    s == a + p + b && c !in p && (a == "" || a[|a| - 1] == c) && (b == "" || b[0] == c)
  }

  lemma PartBegins(p: string, c: char, b: string)
    requires c !in p && (b == "" || b[0] == c)
    ensures p in Split(p + b, [c])
  {
    FindChar(p, c);
    SplitWhole(p, [c]);
    if b == "" {
      assert p + b == p;
    } else {
      assert p + b == p + [c] + b[1..];
      SplitConcat(p, b[1..], [c]);
    }
  }

  lemma PartFound(s: string, c: char, a: string, p: string, b: string)
    requires PartAt(s, c, a, p, b)
    ensures p in Split(s, [c])
  {
    PartBegins(p, c, b);
    if a == "" {
      assert s == p + b;
    } else {
      var before := a[..|a| - 1];
      Reassociate(a, p, b);
      assert a == before + [c];
      SplitConcat(before, p + b, [c]);
    }
  }

  lemma {:induction false} FoundPart(s: string, c: char, p: string) returns (a: string, b: string)
    requires p in Split(s, [c])
    ensures PartAt(s, c, a, p, b)
    decreases |s|
  {
    FindChar(s, c);
    if c !in s {
      a, b := "", "";
    } else {
      var head, rest := CutAtFirst(s, [c]);
      FindChar(head, c);
      if p == head {
        a, b := "", [c] + rest;
        FirstPart(head, c, rest);
      } else {
        var a', b' := FoundPart(rest, c, p);
        a, b := head + [c] + a', b';
        LaterPart(head + [c], rest, c, a', p, b');
      }
    }
  }

  lemma FirstPart(head: string, c: char, rest: string)
    requires c !in head
    ensures PartAt(head + [c] + rest, c, "", head, [c] + rest)
  {
    Reassociate(head, [c], rest);
  }

  lemma LaterPart(head: string, rest: string, c: char, a: string, p: string, b: string)
    requires head != "" && head[|head| - 1] == c && PartAt(rest, c, a, p, b)
    ensures PartAt(head + rest, c, head + a, p, b)
  {
  }

  /** w spells a word, in any mixture of small and capital letters. */
  predicate Spelled(w: string, small: string, capital: string)
    requires |small| == |capital|
  {
    |w| == |small| && forall i :: 0 <= i < |w| ==> w[i] == small[i] || w[i] == capital[i]
  }

  predicate Word(small: string, capital: string) {
    small != "" && |small| == |capital|
    && forall i :: 0 <= i < |small| ==> 'a' <= small[i] <= 'z' && (capital[i] as int) == (small[i] as int) - 32
  }

  lemma SpelledExact(w: string, small: string, capital: string)
    requires Word(small, capital)
    ensures Lower(w) == small <==> Spelled(w, small, capital)
  {
    assert |w| == |small| ==> forall i :: 0 <= i < |w| ==>
      (LowerChar(w[i]) == small[i] <==> w[i] == small[i] || w[i] == capital[i]);
  }

  /** A list separated by commas, with blanks around its items, has the word as an item. */
  ghost predicate Lists(text: string, small: string, capital: string)
    requires |small| == |capital|
  {
    exists a, pre, w, post, b ::
      PartAt(text, ',', a, pre + w + post, b) && Blank(pre) && Blank(post) && Spelled(w, small, capital)
  }

  lemma ListsExact(text: string, small: string, capital: string)
    requires Word(small, capital)
    ensures Lists(text, small, capital) <==> exists v :: v in Split(text, ",") && Lower(Trim(v)) == small
  {
    if a, pre, w, post, b :|
      PartAt(text, ',', a, pre + w + post, b) && Blank(pre) && Blank(post) && Spelled(w, small, capital)
    {
      PartFound(text, ',', a, pre + w + post, b);
      TrimAround(pre, w, post);
      SpelledExact(w, small, capital);
    }
    if v :| v in Split(text, ",") && Lower(Trim(v)) == small {
      var a, b := FoundPart(text, ',', v);
      var pre, post := TrimParts(v);
      SpelledExact(Trim(v), small, capital);
      assert PartAt(text, ',', a, pre + Trim(v) + post, b);
    }
  }

  /** Which requests are refused as chunked. */
  lemma ChunkedExactly(head: Head)
    ensures RequestReader.IsChunked(head)
            <==> "transfer-encoding" in head.headers && Lists(head.headers["transfer-encoding"], "chunked", "CHUNKED")
  {
    if "transfer-encoding" in head.headers {
      ListsExact(head.headers["transfer-encoding"], "chunked", "CHUNKED");
    }
  }

  /** Which requests ask for a WebSocket. */
  lemma UpgradeExactly(head: Head)
    ensures Connections.IsUpgrade(head)
            <==> && "upgrade" in head.headers && "connection" in head.headers
                 && Spelled(head.headers["upgrade"], "websocket", "WEBSOCKET")
                 && Lists(head.headers["connection"], "upgrade", "UPGRADE")
  {
    if "upgrade" in head.headers && "connection" in head.headers {
      SpelledExact(head.headers["upgrade"], "websocket", "WEBSOCKET");
      ListsExact(head.headers["connection"], "upgrade", "UPGRADE");
    }
  }

  // ----- a head put together

  predicate NoBlank(s: string) {
    s != "" && forall i :: 0 <= i < |s| ==> s[i] !in BLANKS
  }

  lemma {:induction false} WordStep(w: string, rest: string)
    requires forall i :: 0 <= i < |w| ==> w[i] !in BLANKS
    requires rest == "" || rest[0] in BLANKS
    ensures WordLength(w + rest) == |w|
  {
    if w == "" {
      assert w + rest == rest;
      if rest != "" {
        WhitespaceExact(rest[0]);
      }
    } else {
      WhitespaceExact(w[0]);
      assert (w + rest)[1..] == w[1..] + rest;
      WordStep(w[1..], rest);
    }
  }

  lemma FirstWord(w: string, rest: string)
    requires NoBlank(w) && (rest == "" || rest[0] in BLANKS)
    ensures Words(w + rest) == [w] + Words(rest)
  {
    WhitespaceExact(w[0]);
    WordStep(w, rest);
    assert TrimStart(w + rest) == w + rest && (w + rest)[..|w|] == w && (w + rest)[|w|..] == rest;
  }

  lemma ThreeWords(a: string, b: string, c: string)
    requires NoBlank(a) && NoBlank(b) && NoBlank(c)
    ensures Words(a + (" " + (b + (" " + c)))) == [a, b, c]
  {
    FirstWord(a, " " + (b + (" " + c)));
    FirstWord(b, " " + c);
    FirstWord(c, "");
    assert c + "" == c && Words("") == [];
  }

  datatype HeaderText = HeaderText(name: string, pre: string, value: string, post: string) {
    /** A line without a line end, a name without a colon, blanks around the value only. */
    predicate Valid() {
      && ':' !in name && Trimmed(name) && Trimmed(value) && Blank(pre) && Blank(post)
      && '\r' !in Line() && '\n' !in Line()
    }

    function Line(): string {
      name + ":" + (pre + value + post)
    }
  }

  lemma HeaderRead(h: HeaderText)
    requires h.Valid()
    ensures h.Line() != "" && ReadLine(h.Line()) == Pair(Lower(h.name), h.value)
  {
    FindChar(h.name, ':');
    FindConcat(h.name, h.pre + h.value + h.post, ":");
    DropMiddle(h.name, ":", h.pre + h.value + h.post);
    TrimAround(h.pre, h.value, h.post);
    TrimAround("", h.name, "");
    assert "" + h.name + "" == h.name;
  }

  function RequestLine(verb: string, target: string, version: string): string {
    verb + (" " + (target + (" " + version)))
  }

  /** The lines of a head, each with its line end, and the blank line. */
  function HeadText(first: string, headers: seq<HeaderText>): string {
    Join([first] + (Lines(headers) + ["", ""]), CRLF)
  }

  function Lines(headers: seq<HeaderText>): (r: seq<string>)
    ensures |r| == |headers| && forall i :: 0 <= i < |r| ==> r[i] == headers[i].Line()
  {
    seq(|headers|, i requires 0 <= i < |headers| => headers[i].Line())
  }

  function Entries(headers: seq<HeaderText>): (r: seq<Entry>)
    ensures |r| == |headers| && forall i :: 0 <= i < |r| ==> r[i] == Pair(Lower(headers[i].name), headers[i].value)
  {
    seq(|headers|, i requires 0 <= i < |headers| => Pair(Lower(headers[i].name), headers[i].value))
  }

  lemma NoLineEnd(s: string)
    requires '\r' !in s
    ensures Find(s, CRLF, 0) == None
  {
    assert CRLF[0] == '\r';
    forall j | 0 <= j <= |s| ensures !At(s, j, CRLF) {
      assert j < |s| ==> s[j] != CRLF[0];
    }
    FindNone(s, CRLF);
  }

  lemma HeadSplit(first: string, headers: seq<HeaderText>)
    requires '\r' !in first && forall i :: 0 <= i < |headers| ==> headers[i].Valid()
    ensures Split(HeadText(first, headers), CRLF) == [first] + (Lines(headers) + ["", ""])
  {
    var parts := [first] + (Lines(headers) + ["", ""]);
    forall p | p in parts ensures Find(p, CRLF, 0) == None {
      NoLineEnd(p);
    }
    SplitJoin(parts, CRLF);
  }

  lemma EntriesRead(headers: seq<HeaderText>)
    requires forall i :: 0 <= i < |headers| ==> headers[i].Valid()
    ensures ReadLines(Lines(headers) + ["", ""]) == Entries(headers) + [Skipped, Skipped]
  {
    forall i | 0 <= i < |headers| ensures ReadLine(headers[i].Line()) == Entries(headers)[i] {
      HeaderRead(headers[i]);
    }
  }

  lemma EntriesCollected(entries: seq<Entry>)
    requires forall i :: 0 <= i < |entries| ==> entries[i].Pair?
    ensures Collected(entries + [Skipped, Skipped]) == Collected(entries)
    ensures Collected(entries).Some? && LastWins(Collected(entries).value, entries)
  {
    var all := entries + [Skipped, Skipped];
    assert all[..|all| - 1] == entries + [Skipped] && (entries + [Skipped])[..|entries|] == entries;
    CollectedMeaning(entries);
  }

  /** The head of a text put together from a method, a target, a version and header lines: the method
      in capitals, the path decoded, the query as it is, and for each name in small letters the value
      of its last line. */
  lemma HeadOfParts(verb: string, path: string, query: Option<string>, version: string, headers: seq<HeaderText>)
    requires var target := path + if query.Some? then "?" + query.value else "";
             NoBlank(verb) && NoBlank(target) && NoBlank(version)
             && Utf8(HeadText(RequestLine(verb, target, version), headers))
    requires '?' !in path && forall i :: 0 <= i < |headers| ==> headers[i].Valid()
    ensures var target := path + if query.Some? then "?" + query.value else "";
            var head := HeadOfText(HeadText(RequestLine(verb, target, version), headers));
            && head.Some? && head.value.verb == Upper(verb) && head.value.path == PercentCoding.Decoded(path)
            && head.value.query == (if query.Some? then query.value else "")
            && LastWins(head.value.headers, Entries(headers))
  {
    var target := path + if query.Some? then "?" + query.value else "";
    var first := RequestLine(verb, target, version);
    HeadSplit(first, headers);
    ThreeWords(verb, target, version);
    TargetSplit(path, query);
    EntriesRead(headers);
    EntriesCollected(Entries(headers));
    HeadOfLines(HeadText(first, headers), first, Lines(headers) + ["", ""]);
  }

  lemma HeadOfLines(text: string, first: string, lines: seq<string>)
    requires Split(text, CRLF) == [first] + lines
    requires Utf8(text) && |Words(first)| == 3 && Collected(ReadLines(lines)).Some?
    ensures var (path, query) := SplitTarget(Words(first)[1]);
            HeadOfText(text)
            == Some(Head(Upper(Words(first)[0]), PercentCoding.Decoded(path), query, Collected(ReadLines(lines)).value))
  {
    assert Split(text, CRLF)[0] == first && Split(text, CRLF)[1..] == lines;
  }

  lemma TargetSplit(path: string, query: Option<string>)
    requires '?' !in path
    ensures SplitTarget(path + if query.Some? then "?" + query.value else "")
         == (path, if query.Some? then query.value else "")
  {
    FindChar(path, '?');
    if query.Some? {
      FindConcat(path, query.value, "?");
      DropMiddle(path, "?", query.value);
      assert path + ("?" + query.value) == path + "?" + query.value;
    } else {
      assert path + "" == path;
    }
  }

  /** Where a blank line occurs behind a line: right after it, or in what follows it. */
  lemma OccursAfter(line: string, tail: string, j: nat)
    requires '\r' !in line
    ensures At(line + CRLF + tail, j, BLANK)
            <==> (j == |line| && CRLF <= tail) || (j >= |line| + 2 && At(tail, j - |line| - 2, BLANK))
  {
    var s := line + CRLF + tail;
    assert BLANK == ['\r', '\n', '\r', '\n'] && CRLF == ['\r', '\n'];
    assert s[|line|] == '\r' && s[|line| + 1] == '\n' && s[|line| + 2..] == tail;
    if j < |line| {
      assert s[j] == line[j] && s[j] != BLANK[0];
    } else if j == |line| {
      assert |tail| >= 2 ==> s[j + 2] == tail[0] && s[j + 3] == tail[1];
      assert CRLF <= tail <==> |tail| >= 2 && tail[0] == '\r' && tail[1] == '\n';
      assert At(s, j, BLANK) ==> s[j + 2] == BLANK[2] && s[j + 3] == BLANK[3];
      assert CRLF <= tail ==> forall k :: 0 <= k < 4 ==> s[j + k] == BLANK[k];
    } else if j == |line| + 1 {
      assert s[j] != BLANK[0];
    } else {
      AtSlice(s, |line| + 2, |s|, j - |line| - 2, BLANK);
    }
  }

  lemma BlankAfter(line: string, tail: string)
    requires '\r' !in line
    ensures Find(line + CRLF + tail, BLANK, 0)
         == if CRLF <= tail then Some(|line|)
            else match Find(tail, BLANK, 0) { case None => None case Some(i) => Some(|line| + 2 + i) }
  {
    var s := line + CRLF + tail;
    forall j: nat
      ensures At(s, j, BLANK) <==> (j == |line| && CRLF <= tail) || (j >= |line| + 2 && At(tail, j - |line| - 2, BLANK))
    {
      OccursAfter(line, tail, j);
    }
    if CRLF <= tail {
      FindIs(s, BLANK, |line|);
    } else if Find(tail, BLANK, 0).Some? {
      FindIs(s, BLANK, |line| + 2 + Find(tail, BLANK, 0).value);
    } else {
      FindNone(s, BLANK);
    }
  }

  /** And the head ends where it was put together, whatever comes behind it. */
  lemma {:induction false} HeadEnds(first: string, headers: seq<HeaderText>, rest: string)
    requires first != "" && '\r' !in first && forall i :: 0 <= i < |headers| ==> headers[i].Valid()
    ensures FindHeadersEnd(HeadText(first, headers) + rest) == Some(|HeadText(first, headers)|)
    decreases |headers|
  {
    if headers == [] {
      EndAlone(first, rest);
    } else {
      var next, more := headers[0].Line(), headers[1..];
      HeaderRead(headers[0]);
      HeadEnds(next, more, rest);
      HeadStarts(next, more, rest);
      LineFirst(first, headers, rest);
      EndAfter(first, HeadText(next, more) + rest);
    }
  }

  lemma EndAlone(first: string, rest: string)
    requires '\r' !in first
    ensures FindHeadersEnd(HeadText(first, []) + rest) == Some(|HeadText(first, [])|)
  {
    LastLine(first, rest);
    BlankAfter(first, CRLF + rest);
    assert CRLF <= CRLF + rest;
  }

  lemma EndAfter(line: string, tail: string)
    requires '\r' !in line && !(CRLF <= tail) && FindHeadersEnd(tail).Some?
    ensures FindHeadersEnd(line + CRLF + tail) == Some(|line| + 2 + FindHeadersEnd(tail).value)
  {
    BlankAfter(line, tail);
  }

  lemma LastLine(first: string, rest: string)
    ensures HeadText(first, []) == first + BLANK
    ensures HeadText(first, []) + rest == first + CRLF + (CRLF + rest)
  {
    assert [first] + (Lines([]) + ["", ""]) == [first, "", ""];
    assert [first, "", ""][1..] == ["", ""] && ["", ""][1..] == [""];
    assert Join([""], CRLF) == "" && Join(["", ""], CRLF) == "" + CRLF + "";
    assert "" + CRLF + "" == CRLF && Join([first, "", ""], CRLF) == first + CRLF + CRLF;
    assert first + CRLF + CRLF == first + BLANK;
    Reassociate(first + CRLF, CRLF, rest);
  }

  lemma LineFirst(first: string, headers: seq<HeaderText>, rest: string)
    requires headers != []
    ensures HeadText(first, headers) == first + CRLF + HeadText(headers[0].Line(), headers[1..])
    ensures HeadText(first, headers) + rest == first + CRLF + (HeadText(headers[0].Line(), headers[1..]) + rest)
  {
    var parts := [first] + (Lines(headers) + ["", ""]);
    assert parts[1..] == [headers[0].Line()] + (Lines(headers[1..]) + ["", ""]);
    Reassociate(first + CRLF, HeadText(headers[0].Line(), headers[1..]), rest);
  }

  lemma HeadStarts(first: string, headers: seq<HeaderText>, rest: string)
    requires first != "" && '\r' !in first
    ensures !(CRLF <= HeadText(first, headers) + rest)
  {
    var parts := [first] + (Lines(headers) + ["", ""]);
    assert HeadText(first, headers) == first + CRLF + Join(parts[1..], CRLF);
    assert (HeadText(first, headers) + rest)[0] == first[0] && first[0] != CRLF[0];
  }
}
