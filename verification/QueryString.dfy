/** Query strings: the Julia parser, its round trip with every encoder that escapes the four
    special characters, and the shorter lookup of the Rust fast path. */
module QueryString {
  import opened Basics
  import opened Text
  import opened PercentCoding
  import opened Dictionaries

  /** The two sides of the first '='; a part without one is a key with an empty value. */
  function CutPair(part: string): (string, string) {
    match Find(part, "=", 0)
    case None => (part, "")
    case Some(i) => (part[..i], part[i + 1..])
  }

  /** The key is decoded first; an empty key drops the part before its value is looked at. */
  function ReadPart(part: string): Entry {
    var (keyRaw, valueRaw) := CutPair(part);
    match QueryDecoded(keyRaw)
    case Err(_) => Bad
    case Ok(key) =>
      if key == "" then Skipped
      else
        match QueryDecoded(valueRaw)
        case Err(_) => Bad
        case Ok(value) => Pair(key, value)
  }

  function Parts(query: string): seq<string> {
    NonEmpty(Split(query, "&"))
  }

  function ReadParts(parts: seq<string>): (r: seq<Entry>)
    ensures |r| == |parts| && forall i :: 0 <= i < |r| ==> r[i] == ReadPart(parts[i])
  {
    seq(|parts|, i requires 0 <= i < |parts| => ReadPart(parts[i]))
  }

  /** The parameters of a query; None is the error answered with status 400. */
  function Parsed(query: string): Option<map<string, string>> {
    Collected(ReadParts(Parts(query)))
  }

  lemma NoParts()
    ensures Parts("") == []
  {
    assert Find("", "&", 0) == None;
  }

  /** The parser: it fails exactly when some part is bad; otherwise the last part with a key
      decides. */
  method ParseQueryString(query: string) returns (r: Result<map<string, string>, BadRequest>)
    ensures r == (if Parsed(query) == None then Err(InvalidPercentEncoding) else Ok(Parsed(query).value))
    ensures r.Err? <==> Bad in ReadParts(Parts(query))
    ensures r.Ok? ==> LastWins(r.value, ReadParts(Parts(query)))
  {
    var parts := Parts(query);
    CollectedMeaning(ReadParts(parts));
    if query == "" {
      NoParts();
      return Ok(map[]);
    }
    r := InsertParts(parts);
  }

  /** The loop over the parts. */
  method InsertParts(parts: seq<string>) returns (r: Result<map<string, string>, BadRequest>)
    ensures r == match Collected(ReadParts(parts)) { case None => Err(InvalidPercentEncoding) case Some(m) => Ok(m) }
  {
    ghost var read := ReadParts(parts);
    var params: map<string, string> := map[];
    for i := 0 to |parts|
      invariant Some(params) == Collected(read[..i])
    {
      CollectedStep(read, i);
      var entry := DecodePart(parts[i]);
      if entry.Bad? {
        CollectedBad(read, i);
        return Err(InvalidPercentEncoding);
      }
      if entry.Pair? {
        params := params[entry.key := entry.value];
      }
    }
    assert read[..|parts|] == read;
    r := Ok(params);
  }

  method DecodePart(part: string) returns (entry: Entry)
    ensures entry == ReadPart(part)
  {
    var (keyRaw, valueRaw) := CutPair(part);
    var key := DecodeQueryComponent(keyRaw);
    if key.Err? {
      return Bad;
    }
    if key.value == "" {
      return Skipped;
    }
    var value := DecodeQueryComponent(valueRaw);
    entry := if value.Err? then Bad else Pair(key.value, value.value);
  }

  // ----- the round trip

  /** The characters that have a meaning in a query. */
  const SPECIAL := {'%', '+', '&', '='}

  /** part is an encoded key and an encoded value around an equals sign. */
  ghost predicate EncodesPair(part: string, key: string, value: string) {
    exists k, v :: part == k + "=" + v && Encodes(k, key, SPECIAL, true) && Encodes(v, value, SPECIAL, true)
  }

  lemma PairRead(part: string, key: string, value: string)
    requires EncodesPair(part, key, value) && key != ""
    ensures ReadPart(part) == Pair(key, value)
    ensures part != "" && Find(part, "&", 0) == None
  {
    var k, v :| part == k + "=" + v && Encodes(k, key, SPECIAL, true) && Encodes(v, value, SPECIAL, true);
    EncodeAvoids(k, key, SPECIAL, true, '=');
    EncodeAvoids(k, key, SPECIAL, true, '&');
    EncodeAvoids(v, value, SPECIAL, true, '&');
    FindChar(k, '=');
    FindConcat(k, v, "=");
    FindChar(part, '&');
    DropMiddle(k, "=", v);
    QueryDecodeEncode(k, key, SPECIAL, true);
    QueryDecodeEncode(v, value, SPECIAL, true);
  }

  /** Parsing undoes encoding, whatever the order of the entries and however each occurrence of a
      character is encoded, as long as the four special characters are escaped. */
  lemma QueryRoundTrip(parts: seq<string>, keys: seq<string>, m: map<string, string>)
    requires "" !in m && Enumerates(keys, m) && |parts| == |keys|
    requires forall i :: 0 <= i < |keys| ==> EncodesPair(parts[i], keys[i], m[keys[i]])
    ensures Parsed(Join(parts, "&")) == Some(m)
  {
    PairsRead(parts, keys, m);
    PairsCollected(parts, keys, m);
  }

  lemma PairsCollected(parts: seq<string>, keys: seq<string>, m: map<string, string>)
    requires Enumerates(keys, m) && |parts| == |keys| && Parts(Join(parts, "&")) == parts
    requires forall i :: 0 <= i < |keys| ==> ReadPart(parts[i]) == Pair(keys[i], m[keys[i]])
    ensures Parsed(Join(parts, "&")) == Some(m)
  {
    CollectDistinct(keys, m, ReadParts(parts));
  }

  lemma PairsRead(parts: seq<string>, keys: seq<string>, m: map<string, string>)
    requires "" !in m && Enumerates(keys, m) && |parts| == |keys|
    requires forall i :: 0 <= i < |keys| ==> EncodesPair(parts[i], keys[i], m[keys[i]])
    ensures Parts(Join(parts, "&")) == parts
    ensures forall i :: 0 <= i < |keys| ==> ReadPart(parts[i]) == Pair(keys[i], m[keys[i]])
  {
    forall i | 0 <= i < |parts|
      ensures parts[i] != "" && Find(parts[i], "&", 0) == None && ReadPart(parts[i]) == Pair(keys[i], m[keys[i]])
    {
      PairRead(parts[i], keys[i], m[keys[i]]);
    }
    if parts == [] {
      NoParts();
    } else {
      SplitJoin(parts, "&");
      NonEmptyIdentity(parts);
    }
  }

  // ----- the lookup of the native fast path

  /** The part is the key, '=' and a value. */
  predicate Carries(part: string, key: string) {
    |key| < |part| && part[..|key|] == key && part[|key|] == '='
  }

  function FirstCarried(parts: seq<string>, key: string): Option<string> {
    if parts == [] then None
    else if Carries(parts[0], key) then Some(parts[0][|key| + 1..])
    else FirstCarried(parts[1..], key)
  }

  /** The first part that carries the key, values taken as they stand. */
  method ExtractQueryPair(query: string, key: string) returns (r: Option<string>)
    ensures r == FirstCarried(Split(query, "&"), key)
    ensures r == None <==> forall part :: part in Split(query, "&") ==> !Carries(part, key)
  {
    var parts := Split(query, "&");
    FirstCarriedNone(parts, key);
    for i := 0 to |parts|
      invariant FirstCarried(parts, key) == FirstCarried(parts[i..], key)
    {
      var part := parts[i];
      assert parts[i..][0] == part && parts[i..][1..] == parts[i + 1..];
      if |key| <= |part| && part[..|key|] == key {
        var remainder := part[|key|..];
        if remainder != "" && remainder[0] == '=' {
          assert remainder[1..] == part[|key| + 1..];
          return Some(remainder[1..]);
        }
      }
    }
    r := None;
  }

  lemma {:induction false} FirstCarriedNone(parts: seq<string>, key: string)
    ensures FirstCarried(parts, key) == None <==> forall part :: part in parts ==> !Carries(part, key)
  {
    if parts == [] {
    } else {
      FirstCarriedNone(parts[1..], key);
      assert parts == [parts[0]] + parts[1..];
    }
  }

  lemma {:induction false} FirstCarriedSkipsEmpty(parts: seq<string>, key: string)
    requires key != ""
    ensures FirstCarried(NonEmpty(parts), key) == FirstCarried(parts, key)
  {
    if parts == [] {
    } else {
      FirstCarriedSkipsEmpty(parts[1..], key);
      var head := if parts[0] == "" then [] else [parts[0]];
      assert (head + NonEmpty(parts[1..]))[|head|..] == NonEmpty(parts[1..]);
    }
  }

  lemma {:induction false} FirstCarriedAt(parts: seq<string>, key: string, i: nat)
    requires i < |parts| && Carries(parts[i], key)
    requires forall j :: 0 <= j < i ==> !Carries(parts[j], key)
    ensures FirstCarried(parts, key) == Some(parts[i][|key| + 1..])
  {
    if i == 0 {
    } else {
      FirstCarriedAt(parts[1..], key, i - 1);
    }
  }

  function Lookup(m: map<string, string>, key: string): Option<string> {
    if key in m then Some(m[key]) else None
  }

  /** What the parser reads in a part without escapes, and how that relates to carrying a key. */
  lemma PlainPart(part: string, key: string)
    requires '%' !in part && '+' !in part && key != "" && '=' !in key
    ensures PlainReading(part, key)
  {
    var (k, v) := CutPair(part);
    FindChar(part, '=');
    QueryDecodedPlain(k);
    QueryDecodedPlain(v);
    if Carries(part, key) {
      assert part[..|key|] == key;
      FindIs(part, "=", |key|);
    }
  }

  /** The value a part gives to the key it is keyed by. */
  function ValueIn(part: string, key: string): string
    requires KeyedBy(part, key)
  {
    if part == key then "" else part[|key| + 1..]
  }

  /** The first part that carries the key and the last part keyed by it give it the same value. */
  predicate FirstMeetsLast(parts: seq<string>, key: string) {
    exists i, j :: 0 <= i < |parts| && 0 <= j < |parts| && FirstCarrier(parts, key, i) && LastKeyed(parts, key, j)
                   && ValueIn(parts[i], key) == ValueIn(parts[j], key)
  }

  predicate FirstCarrier(parts: seq<string>, key: string, i: int) {
    0 <= i < |parts| && Carries(parts[i], key) && forall j :: 0 <= j < i ==> !Carries(parts[j], key)
  }

  predicate LastKeyed(parts: seq<string>, key: string, i: int) {
    0 <= i < |parts| && KeyedBy(parts[i], key) && forall j :: i < j < |parts| ==> !KeyedBy(parts[j], key)
  }

  /** When nothing is escaped, the fast path and the parser find the same exactly when the key does
      not occur, or the first part that carries it gives it the same value as the last part keyed by
      it, a key that stands alone having the empty value. */
  lemma LookupsAgree(query: string, key: string)
    requires '%' !in query && '+' !in query
    requires key != "" && '=' !in key && '&' !in key
    ensures Parsed(query).Some?
    ensures FirstCarried(Split(query, "&"), key) == Lookup(Parsed(query).value, key)
        <==> (forall part :: part in Parts(query) ==> !KeyedBy(part, key)) || FirstMeetsLast(Parts(query), key)
  {
    PlainParts(query, key);
    CollectedMeaning(ReadParts(Parts(query)));
    assert forall j :: 0 <= j < |Parts(query)| ==> PlainReading(Parts(query)[j], key);
    FirstCarriedSkipsEmpty(Split(query, "&"), key);
    LookupsOnParts(Parts(query), key, Parsed(query).value);
  }

  lemma LookupsOnParts(parts: seq<string>, key: string, m: map<string, string>)
    requires LastWins(m, ReadParts(parts))
    requires forall part :: part in parts ==> PlainReading(part, key)
    ensures FirstCarried(parts, key) == Lookup(m, key)
        <==> (forall part :: part in parts ==> !KeyedBy(part, key)) || FirstMeetsLast(parts, key)
  {
    assert forall j :: 0 <= j < |parts| ==> PlainReading(parts[j], key);
    FirstCarriedNone(parts, key);
    if j :| 0 <= j < |parts| && KeyedBy(parts[j], key) {
      var last := LookupIsLast(parts, key, m, j);
      if FirstCarried(parts, key).Some? {
        var first := CarrierFirst(parts, key);
        FirstCarriedAt(parts, key, first);
        UniqueEnds(parts, key, first, last);
      }
    }
  }

  /** The parser gives a key the value of the last part keyed by it. */
  lemma LookupIsLast(parts: seq<string>, key: string, m: map<string, string>, j: nat) returns (last: nat)
    requires LastWins(m, ReadParts(parts)) && j < |parts| && KeyedBy(parts[j], key)
    requires forall i :: 0 <= i < |parts| ==> PlainReading(parts[i], key)
    ensures LastKeyed(parts, key, last) && Lookup(m, key) == Some(ValueIn(parts[last], key))
  {
    var read := ReadParts(parts);
    assert read[j].key in m;
    last :| LastWith(read, last, key) && m[key] == read[last].value;
    assert forall i :: 0 <= i < |parts| ==> (read[i].Pair? && read[i].key == key <==> KeyedBy(parts[i], key));
  }

  lemma CarrierFirst(parts: seq<string>, key: string) returns (first: nat)
    requires FirstCarried(parts, key).Some?
    ensures FirstCarrier(parts, key, first)
  {
    if Carries(parts[0], key) {
      first := 0;
    } else {
      var rest := CarrierFirst(parts[1..], key);
      first := rest + 1;
      assert forall j :: 1 <= j < |parts| ==> parts[j] == parts[1..][j - 1];
    }
  }

  lemma UniqueEnds(parts: seq<string>, key: string, first: nat, last: nat)
    requires FirstCarrier(parts, key, first) && LastKeyed(parts, key, last)
    ensures FirstMeetsLast(parts, key) <==> ValueIn(parts[first], key) == ValueIn(parts[last], key)
  {
  }

  /** For a key that occurs at most once: they agree unless it stands alone. */
  lemma LookupsOnSingleKey(query: string, key: string)
    requires '%' !in query && '+' !in query
    requires key != "" && '=' !in key && '&' !in key
    requires forall i, j :: 0 <= i < j < |Parts(query)| ==>
               !(KeyedBy(Parts(query)[i], key) && KeyedBy(Parts(query)[j], key))
    ensures Parsed(query).Some?
    ensures FirstCarried(Split(query, "&"), key) == Lookup(Parsed(query).value, key)
        <==> key !in Parts(query)
  {
    LookupsAgree(query, key);
    OneEnd(Parts(query), key);
  }

  lemma OneEnd(parts: seq<string>, key: string)
    requires forall i, j :: 0 <= i < j < |parts| ==> !(KeyedBy(parts[i], key) && KeyedBy(parts[j], key))
    ensures (forall part :: part in parts ==> !KeyedBy(part, key)) || FirstMeetsLast(parts, key) <==> key !in parts
  {
    if i :| 0 <= i < |parts| && KeyedBy(parts[i], key) {
      if Carries(parts[i], key) {
        assert FirstCarrier(parts, key, i) && LastKeyed(parts, key, i);
      }
    }
  }

  /** How a part without escapes is read, seen from one key. */
  predicate PlainReading(part: string, key: string) {
    && !ReadPart(part).Bad?
    && (ReadPart(part).Pair? && ReadPart(part).key == key <==> KeyedBy(part, key))
    && (Carries(part, key) ==> part != key && ReadPart(part).value == part[|key| + 1..])
    && (part == key ==> ReadPart(part).value == "")
  }

  lemma PlainParts(query: string, key: string)
    requires '%' !in query && '+' !in query && key != "" && '=' !in key
    ensures forall part :: part in Parts(query) ==> PlainReading(part, key)
  {
    SplitChars(query, "&");
    forall part | part in Parts(query) ensures PlainReading(part, key) {
      PlainPart(part, key);
    }
  }

  predicate KeyedBy(part: string, key: string) {
    part == key || Carries(part, key)
  }

  predicate PlainText(s: string) {
    '%' !in s && '+' !in s && '&' !in s && '=' !in s
  }

  /** On a repeated key they part: the fast path takes the first value, the parser the last. */
  lemma LookupsOnRepeatedKey(key: string, first: string, second: string)
    requires key != "" && PlainText(key) && PlainText(first) && PlainText(second)
    ensures var query := key + "=" + first + "&" + (key + "=" + second);
            && FirstCarried(Split(query, "&"), key) == Some(first)
            && Parsed(query) == Some(map[key := second])
            && (FirstCarried(Split(query, "&"), key) == Lookup(Parsed(query).value, key) <==> first == second)
  {
    var p, q := key + "=" + first, key + "=" + second;
    PlainPair(key, first);
    PlainPair(key, second);
    TwoParts(p, q);
    FirstCarriedAt([p, q], key, 0);
    RepeatedPair(p, q, key, first, second);
  }

  lemma RepeatedPair(p: string, q: string, key: string, first: string, second: string)
    requires ReadPart(p) == Pair(key, first) && ReadPart(q) == Pair(key, second)
    ensures Collected(ReadParts([p, q])) == Some(map[key := second])
  {
    CollectTwo(key, first, second);
    assert ReadParts([p, q]) == [Pair(key, first), Pair(key, second)];
  }

  lemma TwoParts(p: string, q: string)
    requires p != "" && q != "" && Find(p, "&", 0) == None && Find(q, "&", 0) == None
    ensures Split(p + "&" + q, "&") == Parts(p + "&" + q) == [p, q]
  {
    SplitWhole(q, "&");
    SplitStep(p, q, "&");
    assert [p] + [q] == [p, q];
    NonEmptyIdentity([p, q]);
  }

  lemma CollectOne(key: string, value: string)
    ensures Collected([Pair(key, value)]) == Some(map[key := value])
  {
    assert [Pair(key, value)][..0] == [];
    assert map[][key := value] == map[key := value];
  }

  lemma CollectTwo(key: string, first: string, second: string)
    ensures Collected([Pair(key, first), Pair(key, second)]) == Some(map[key := second])
  {
    var parts := [Pair(key, first), Pair(key, second)];
    CollectOne(key, first);
    assert parts[..1] == [Pair(key, first)];
    assert map[key := first][key := second] == map[key := second];
  }

  lemma PlainPair(key: string, value: string)
    requires key != "" && PlainText(key) && PlainText(value)
    ensures var part := key + "=" + value;
            && part != "" && Find(part, "&", 0) == None
            && Carries(part, key) && part[|key| + 1..] == value && ReadPart(part) == Pair(key, value)
  {
    var part := key + "=" + value;
    FindChar(part, '&');
    DropMiddle(key, "=", value);
    PlainPart(part, key);
  }

  /** A key that stands alone is an input on which they differ. */
  lemma LookupsOnKeyAlone(key: string)
    requires key != "" && PlainText(key)
    ensures FirstCarried(Split(key, "&"), key) == None && Parsed(key) == Some(map[key := ""])
  {
    FindChar(key, '&');
    SplitWhole(key, "&");
    NonEmptyIdentity([key]);
    PlainPart(key, key);
    assert [key][1..] == [];
    assert FirstCarried([key], key) == None;
    assert ReadParts([key]) == [Pair(key, "")];
    CollectOne(key, "");
  }
}
