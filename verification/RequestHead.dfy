/** The head of an HTTP request: how the Rust server parses it, and the header text it hands to
    Julia, which parses it again. */
module RequestHead {
  import opened Basics
  import opened Text
  import opened Dictionaries
  import PercentCoding

  const CRLF := "\r\n"
  const BLANK := "\r\n\r\n"

  datatype Head = Head(verb: string, path: string, query: string, headers: map<string, string>)

  /** The position just after the first blank line. */
  function FindHeadersEnd(buffer: string): (r: Option<nat>)
    ensures r.Some? ==> 4 <= r.value <= |buffer| && At(buffer, r.value - 4, BLANK)
  {
    match Find(buffer, BLANK, 0)
    case None => None
    case Some(i) => Some(i + 4)
  }

  predicate Continuation(s: string, i: nat, low: int, high: int) {
    i < |s| && low <= (s[i] as int) <= high
  }

  /** How many bytes the first character of s takes in UTF-8; 0 when the bytes are not UTF-8. */
  function Utf8Width(s: string): (n: nat)
    requires s != ""
    ensures n <= |s|
  {
    var b := s[0] as int;
    if b < 0x80 then 1
    else if 0xC2 <= b <= 0xDF && Continuation(s, 1, 0x80, 0xBF) then 2
    else if 0xE0 <= b <= 0xEF
         && Continuation(s, 1, if b == 0xE0 then 0xA0 else 0x80, if b == 0xED then 0x9F else 0xBF)
         && Continuation(s, 2, 0x80, 0xBF) then 3
    else if 0xF0 <= b <= 0xF4
         && Continuation(s, 1, if b == 0xF0 then 0x90 else 0x80, if b == 0xF4 then 0x8F else 0xBF)
         && Continuation(s, 2, 0x80, 0xBF) && Continuation(s, 3, 0x80, 0xBF) then 4
    else 0
  }

  predicate Utf8(s: string) {
    s == "" || (Utf8Width(s) > 0 && Utf8(s[Utf8Width(s)..]))
  }

  function WordLength(s: string): (n: nat)
    ensures n <= |s|
  {
    if s == "" || Whitespace(s[0]) then 0 else 1 + WordLength(s[1..])
  }

  lemma TrimStartShrinks(s: string)
    ensures |TrimStart(s)| <= |s| && (TrimStart(s) != "" ==> WordLength(TrimStart(s)) > 0)
  {
    var lo := TrimStartSlice(s);
  }

  /** The maximal runs of other characters between white space. */
  function Words(s: string): seq<string>
    decreases |s|
  {
    TrimStartShrinks(s);
    var t := TrimStart(s);
    if t == "" then [] else [t[..WordLength(t)]] + Words(t[WordLength(t)..])
  }

  function SplitTarget(target: string): (string, string) {
    match Find(target, "?", 0)
    case None => (target, "")
    case Some(i) => (target[..i], target[i + 1..])
  }

  /** One header line: an empty one is skipped, one without a colon spoils the whole head. */
  function ReadLine(line: string): Entry {
    if line == "" then Skipped
    else
      match Find(line, ":", 0)
      case None => Bad
      case Some(i) => Pair(Lower(Trim(line[..i])), Trim(line[i + 1..]))
  }

  function ReadLines(lines: seq<string>): (r: seq<Entry>)
    ensures |r| == |lines| && forall i :: 0 <= i < |r| ==> r[i] == ReadLine(lines[i])
  {
    seq(|lines|, i requires 0 <= i < |lines| => ReadLine(lines[i]))
  }

  /** The head in the text up to and including the blank line. */
  function HeadOfText(text: string): Option<Head> {
    var lines := Split(text, CRLF);
    var words := Words(lines[0]);
    var headers := Collected(ReadLines(lines[1..]));
    if !Utf8(text) || |words| < 3 || headers == None then None
    else
      var (path, query) := SplitTarget(words[1]);
      Some(Head(Upper(words[0]), PercentCoding.Decoded(path), query, headers.value))
  }

  function ParsedHead(preview: string): Option<Head> {
    match FindHeadersEnd(preview)
    case None => None
    case Some(end) => HeadOfText(preview[..end])
  }

  /** The parser. The header names are in lower case and trimmed, the values are trimmed, and of
      two lines with one name the later counts. */
  method ParseRequestHead(preview: string) returns (r: Option<Head>)
    ensures r == ParsedHead(preview)
    ensures r.Some? ==> LastWins(r.value.headers, ReadLines(Split(preview[..FindHeadersEnd(preview).value], CRLF)[1..]))
  {
    var end := FindHeadersEnd(preview);
    if end == None {
      return None;
    }
    var text := preview[..end.value];
    if !Utf8(text) {
      return None;
    }
    var lines := Split(text, CRLF);
    var words := Words(lines[0]);
    if |words| < 3 {
      return None;
    }
    var (rawPath, query) := SplitTarget(words[1]);
    var path := PercentCoding.PercentDecode(rawPath);
    var headers := InsertLines(lines[1..]);
    if headers == None {
      return None;
    }
    r := Some(Head(Upper(words[0]), path, query, headers.value));
  }

  /** The loop over the header lines. */
  method InsertLines(lines: seq<string>) returns (r: Option<map<string, string>>)
    ensures r == Collected(ReadLines(lines))
    ensures r.Some? ==> LastWins(r.value, ReadLines(lines))
  {
    ghost var read := ReadLines(lines);
    CollectedMeaning(read);
    var headers: map<string, string> := map[];
    for i := 0 to |lines|
      invariant Some(headers) == Collected(read[..i])
    {
      CollectedStep(read, i);
      var line := lines[i];
      if line == "" {
        continue;
      }
      var colon := Find(line, ":", 0);
      if colon == None {
        CollectedBad(read, i);
        return None;
      }
      headers := headers[Lower(Trim(line[..colon.value])) := Trim(line[colon.value + 1..])];
    }
    assert read[..|lines|] == read;
    r := Some(headers);
  }

  // ----- the peeked prefix

  /** A blank line found in a prefix is the one found in the whole, and the other way round when
      the prefix reaches it. */
  lemma HeadersEndOfPrefix(s: string, n: nat)
    requires n <= |s|
    ensures FindHeadersEnd(s[..n]).Some? ==> FindHeadersEnd(s) == FindHeadersEnd(s[..n])
    ensures FindHeadersEnd(s).Some? && FindHeadersEnd(s).value <= n ==> FindHeadersEnd(s[..n]) == FindHeadersEnd(s)
  {
    forall j | 0 <= j <= n ensures At(s[..n], j, BLANK) <==> At(s, j, BLANK) && j + 4 <= n {
      AtSlice(s, 0, n, j, BLANK);
    }
    if FindHeadersEnd(s[..n]).Some? {
      FindIs(s, BLANK, FindHeadersEnd(s[..n]).value - 4);
    }
  }

  /** What parses in a prefix parses to the same head in every longer piece of the stream, and in
      the exact header bytes. */
  lemma HeadOfPrefix(s: string, n: nat)
    requires n <= |s| && ParsedHead(s[..n]).Some?
    ensures FindHeadersEnd(s).Some? && FindHeadersEnd(s).value <= n
    ensures ParsedHead(s) == ParsedHead(s[..n])
    ensures ParsedHead(s[..FindHeadersEnd(s).value]) == ParsedHead(s[..n])
  {
    HeadersEndOfPrefix(s, n);
    var end := FindHeadersEnd(s).value;
    HeadersEndOfPrefix(s, end);
    assert s[..n][..end] == s[..end] == s[..end][..end];
  }

  // ----- across the foreign function interface

  function WireLine(name: string, value: string): string {
    name + ": " + value
  }

  /** The header text in an order of the map's entries. */
  function Serialized(names: seq<string>, headers: map<string, string>): string
    requires forall k :: k in names ==> k in headers
  {
    if names == [] then ""
    else WireLine(names[0], headers[names[0]]) + CRLF + Serialized(names[1..], headers)
  }

  /** The loop that writes the text; the order is whatever the hash map gives. */
  method SerializeHeaders(headers: map<string, string>, names: seq<string>) returns (serialized: string)
    requires Enumerates(names, headers)
    ensures serialized == Serialized(names, headers)
  {
    serialized := "";
    for i := 0 to |names|
      invariant serialized + Serialized(names[i..], headers) == Serialized(names, headers)
    {
      serialized := serialized + names[i];
      serialized := serialized + ": ";
      serialized := serialized + headers[names[i]];
      serialized := serialized + CRLF;
    }
    assert names[|names|..] == [];
  }

  lemma FiveParts(a: string, b: string, c: string, d: string, e: string, f: string)
    ensures a + (b + c + d + e + f) == a + b + c + d + e + f
  {
  }

  /** One line of the text on the Julia side: a line without a colon is passed over. */
  function ReadWireLine(line: string): Entry {
    match Find(line, ":", 0)
    case None => Skipped
    case Some(i) => Pair(Trim(line[..i]), Trim(line[i + 1..]))
  }

  function ReadWireLines(lines: seq<string>): (r: seq<Entry>)
    ensures |r| == |lines| && forall i :: 0 <= i < |r| ==> r[i] == ReadWireLine(lines[i])
  {
    seq(|lines|, i requires 0 <= i < |lines| => ReadWireLine(lines[i]))
  }

  function JuliaHeaders(raw: string): Option<map<string, string>> {
    Collected(ReadWireLines(NonEmpty(Split(raw, CRLF))))
  }

  /** The Julia parser; it never fails. */
  method ParseHeaders(raw: string) returns (headers: map<string, string>)
    ensures JuliaHeaders(raw) == Some(headers)
    ensures LastWins(headers, ReadWireLines(NonEmpty(Split(raw, CRLF))))
  {
    var lines := NonEmpty(Split(raw, CRLF));
    ghost var read := ReadWireLines(lines);
    CollectedMeaning(read);
    headers := map[];
    for i := 0 to |lines|
      invariant Some(headers) == Collected(read[..i])
    {
      CollectedStep(read, i);
      var colon := Find(lines[i], ":", 0);
      if colon.Some? {
        headers := headers[Trim(lines[i][..colon.value]) := Trim(lines[i][colon.value + 1..])];
      }
    }
    assert read[..|lines|] == read;
  }

  /** What a header must be like to survive the trip. */
  predicate WireSafe(name: string, value: string) {
    && ':' !in name && Trim(name) == name && Trim(value) == value
    && CrlfFree(name) && CrlfFree(value)
  }

  predicate CrlfFree(s: string) {
    forall j :: 0 <= j < |s| - 1 ==> !(s[j] == '\r' && s[j + 1] == '\n')
  }

  lemma CrlfFreeFind(s: string)
    ensures CrlfFree(s) <==> Find(s, CRLF, 0) == None
  {
    assert CRLF[0] == '\r' && CRLF[1] == '\n';
    forall j | 0 <= j < |s| - 1 ensures At(s, j, CRLF) <==> s[j] == '\r' && s[j + 1] == '\n' {
      assert At(s, j, CRLF) ==> s[j + 0] == CRLF[0] && s[j + 1] == CRLF[1];
    }
    if CrlfFree(s) {
      FindNone(s, CRLF);
    }
  }

  lemma TrimClean(s: string)
    requires CrlfFree(s)
    ensures CrlfFree(Trim(s)) && forall c :: c in Trim(s) ==> c in s
  {
    var lo, hi := TrimSlice(s);
  }

  /** A name in lower case, trimmed, is as safe as it was. */
  lemma LowerSafe(name: string)
    requires CrlfFree(name) && ':' !in name
    ensures ':' !in Lower(Trim(name)) && CrlfFree(Lower(Trim(name))) && Trim(Lower(Trim(name))) == Lower(Trim(name))
  {
    TrimClean(name);
    TrimIdempotent(name);
    TrimLower(Trim(name));
  }

  /** Everything a header line contributes is safe on the wire. */
  lemma ReadLineSafe(line: string)
    requires CrlfFree(line) && ReadLine(line).Pair?
    ensures WireSafe(ReadLine(line).key, ReadLine(line).value)
  {
    var i := Find(line, ":", 0).value;
    FindChar(line, ':');
    LowerSafe(line[..i]);
    TrimClean(line[i + 1..]);
    TrimIdempotent(line[i + 1..]);
  }

  lemma HeadersSafe(preview: string)
    requires ParsedHead(preview).Some?
    ensures forall k :: k in ParsedHead(preview).value.headers ==> WireSafe(k, ParsedHead(preview).value.headers[k])
  {
    var text := preview[..FindHeadersEnd(preview).value];
    var headers := ParsedHead(preview).value.headers;
    var lines := Split(text, CRLF)[1..];
    SplitClean(text, CRLF);
    CollectedMeaning(ReadLines(lines));
    forall k | k in headers ensures WireSafe(k, headers[k]) {
      var i :| LastWith(ReadLines(lines), i, k) && headers[k] == ReadLines(lines)[i].value;
      assert lines[i] in Split(text, CRLF);
      CrlfFreeFind(lines[i]);
      ReadLineSafe(lines[i]);
    }
  }

  /** One safe header is read back from its line. */
  lemma WireLineRead(name: string, value: string)
    requires WireSafe(name, value)
    ensures WireLine(name, value) != "" && Find(WireLine(name, value), CRLF, 0) == None
    ensures ReadWireLine(WireLine(name, value)) == Pair(name, value)
  {
    var line := WireLine(name, value);
    assert CrlfFree(line) by {
      assert forall j :: 0 <= j < |line| - 1 ==>
        (j < |name| - 1 ==> line[j] == name[j] && line[j + 1] == name[j + 1])
        && (j >= |name| + 2 ==> line[j] == value[j - |name| - 2] && line[j + 1] == value[j - |name| - 1]);
    }
    CrlfFreeFind(line);
    assert line == name + ":" + (" " + value);
    FindChar(name, ':');
    FindConcat(name, " " + value, ":");
    DropMiddle(name, ":", " " + value);
    assert (" " + value)[1..] == value;
  }

  lemma WireLinesStep(names: seq<string>, headers: map<string, string>)
    requires names != [] && forall k :: k in names ==> k in headers && WireSafe(k, headers[k])
    ensures Split(Serialized(names, headers), CRLF)
         == [WireLine(names[0], headers[names[0]])] + Split(Serialized(names[1..], headers), CRLF)
  {
    WireLineRead(names[0], headers[names[0]]);
    SplitStep(WireLine(names[0], headers[names[0]]), Serialized(names[1..], headers), CRLF);
  }

  lemma {:induction false} WireLines(names: seq<string>, headers: map<string, string>)
    requires forall k :: k in names ==> k in headers && WireSafe(k, headers[k])
    ensures |Split(Serialized(names, headers), CRLF)| == |names| + 1
    ensures forall i :: 0 <= i < |names| ==> Split(Serialized(names, headers), CRLF)[i] == WireLine(names[i], headers[names[i]])
    ensures Split(Serialized(names, headers), CRLF)[|names|] == ""
  {
    if names == [] {
      assert Find("", CRLF, 0) == None;
    } else {
      WireLines(names[1..], headers);
      WireLinesStep(names, headers);
    }
  }

  lemma SerializedRead(names: seq<string>, headers: map<string, string>)
    requires Enumerates(names, headers) && forall k :: k in headers ==> WireSafe(k, headers[k])
    ensures JuliaHeaders(Serialized(names, headers)) == Some(headers)
  {
    WireLines(names, headers);
    PartsRead(names, headers, Split(Serialized(names, headers), CRLF));
  }

  lemma PartsRead(names: seq<string>, headers: map<string, string>, parts: seq<string>)
    requires Enumerates(names, headers) && forall k :: k in headers ==> WireSafe(k, headers[k])
    requires |parts| == |names| + 1 && parts[|names|] == ""
    requires forall i :: 0 <= i < |names| ==> parts[i] == WireLine(names[i], headers[names[i]])
    ensures Collected(ReadWireLines(NonEmpty(parts))) == Some(headers)
  {
    LinesRead(names, headers, parts[..|names|]);
    NonEmptyButLast(parts);
  }

  lemma LinesRead(names: seq<string>, headers: map<string, string>, lines: seq<string>)
    requires Enumerates(names, headers) && forall k :: k in headers ==> WireSafe(k, headers[k])
    requires |lines| == |names| && forall i :: 0 <= i < |names| ==> lines[i] == WireLine(names[i], headers[names[i]])
    ensures "" !in lines
    ensures Collected(ReadWireLines(lines)) == Some(headers)
  {
    forall i | 0 <= i < |names|
      ensures lines[i] != "" && ReadWireLine(lines[i]) == Pair(names[i], headers[names[i]])
    {
      WireLineRead(names[i], headers[names[i]]);
    }
    CollectDistinct(names, headers, ReadWireLines(lines));
  }

  /** The headers of every accepted head reach Julia unchanged, in whatever order the hash map
      gives them. */
  lemma HeaderRoundTrip(preview: string, names: seq<string>)
    requires ParsedHead(preview).Some? && Enumerates(names, ParsedHead(preview).value.headers)
    ensures JuliaHeaders(Serialized(names, ParsedHead(preview).value.headers)) == Some(ParsedHead(preview).value.headers)
  {
    HeadersSafe(preview);
    SerializedRead(names, ParsedHead(preview).value.headers);
  }
}
