/** Percent-encoding (section 2.1 of RFC 3986): the Rust decoder of request paths and the Julia
    decoder of query components. A character below 256 stands for one byte. */
module PercentCoding {
  import opened Basics
  import Text

  datatype BadRequest = InvalidPercentEncoding

  function HexVal(b: char): (r: Option<nat>)
    ensures r.Some? ==> r.value < 16
  {
    if '0' <= b <= '9' then Some((b as int) - ('0' as int))
    else if 'a' <= b <= 'f' then Some((b as int) - ('a' as int) + 10)
    else if 'A' <= b <= 'F' then Some((b as int) - ('A' as int) + 10)
    else None
  }

  const LOWER_HEX := "0123456789abcdef"
  const UPPER_HEX := "0123456789ABCDEF"

  /** c stands for n among the digits, in either case. */
  predicate HexDigit(c: char, n: int) {
    0 <= n < 16 && (c == LOWER_HEX[n] || c == UPPER_HEX[n])
  }

  lemma HexValExact(c: char)
    ensures forall n: nat :: HexVal(c) == Some(n) <==> HexDigit(c, n)
    ensures HexVal(c) == None <==> c !in LOWER_HEX && c !in UPPER_HEX
  {
    forall n: nat ensures HexVal(c) == Some(n) <==> HexDigit(c, n) {
    }
    assert forall n :: 0 <= n < 16 && c == LOWER_HEX[n] ==> HexDigit(c, n);
    assert forall n :: 0 <= n < 16 && c == UPPER_HEX[n] ==> HexDigit(c, n);
    if HexVal(c).Some? {
      assert HexDigit(c, HexVal(c).value);
    }
  }

  /** s has a percent sign at i followed by two hexadecimal digits. */
  predicate EscapeAt(s: string, i: nat) {
    i + 2 < |s| && s[i] == '%' && HexVal(s[i + 1]).Some? && HexVal(s[i + 2]).Some?
  }

  function EscapedByte(s: string, i: nat): char
    requires EscapeAt(s, i)
  {
    (16 * HexVal(s[i + 1]).value + HexVal(s[i + 2]).value) as char
  }

  /** What path decoding means: an escape becomes its byte, everything else stays, also a
      percent sign that starts no escape. */
  function Decoded(s: string): (r: string)
    ensures |r| <= |s|
  {
    if s == [] then []
    else if EscapeAt(s, 0) then [EscapedByte(s, 0)] + Decoded(s[3..])
    else [s[0]] + Decoded(s[1..])
  }

  /** The index loop of the Rust decoder. */
  method PercentDecode(s: string) returns (result: string)
    ensures result == Decoded(s)
    ensures |result| <= |s|
    ensures '%' !in s ==> result == s
  {
    result := [];
    var i := 0;
    while i < |s|
      invariant 0 <= i <= |s|
      invariant result + Decoded(s[i..]) == Decoded(s)
    {
      if s[i] == '%' && i + 2 < |s| {
        var h, l := HexVal(s[i + 1]), HexVal(s[i + 2]);
        if h.Some? && l.Some? {
          Text.Reassociate(result, [EscapedByte(s, i)], Decoded(s[i + 3..]));
          result := result + [(16 * h.value + l.value) as char];
          i := i + 3;
          continue;
        }
      }
      Text.Reassociate(result, [s[i]], Decoded(s[i + 1..]));
      result := result + [s[i]];
      i := i + 1;
    }
    if '%' !in s {
      DecodedPlain(s);
    }
  }

  lemma {:induction false} DecodedPlain(s: string)
    requires '%' !in s
    ensures Decoded(s) == s
  {
    if s == [] {
    } else {
      DecodedPlain(s[1..]);
    }
  }

  /** What query component decoding means: '+' is a space, and a percent sign that starts no
      escape is an error. */
  function QueryDecoded(s: string): (r: Result<string, BadRequest>) {
    if s == [] then Ok([])
    else if s[0] == '%' then
      if EscapeAt(s, 0) then Prepend(EscapedByte(s, 0), QueryDecoded(s[3..]))
      else Err(InvalidPercentEncoding)
    else Prepend(if s[0] == '+' then ' ' else s[0], QueryDecoded(s[1..]))
  }

  function Prepend(b: char, r: Result<string, BadRequest>): Result<string, BadRequest> {
    match r
    case Ok(bytes) => Ok([b] + bytes)
    case Err(e) => Err(e)
  }

  /** The scanning loop of the Julia decoder. */
  method DecodeQueryComponent(value: string) returns (r: Result<string, BadRequest>)
    ensures r == QueryDecoded(value)
    ensures r.Ok? <==> WellFormed(value)
  {
    WellFormedDecodes(value);
    var bytes: string := [];
    var i := 0;
    AppendToNothing(QueryDecoded(value));
    while i < |value|
      invariant 0 <= i <= |value|
      invariant QueryDecoded(value) == AppendTo(bytes, QueryDecoded(value[i..]))
    {
      var c := value[i];
      if c == '+' {
        AppendToStep(bytes, ' ', QueryDecoded(value[i + 1..]));
        bytes := bytes + [' '];
        i := i + 1;
      } else if c == '%' {
        if |value| - i < 3 {
          return Err(InvalidPercentEncoding);
        }
        var h, l := HexVal(value[i + 1]), HexVal(value[i + 2]);
        if h == None || l == None {
          return Err(InvalidPercentEncoding);
        }
        var parsed := (16 * h.value + l.value) as char;
        AppendToStep(bytes, parsed, QueryDecoded(value[i + 3..]));
        bytes := bytes + [parsed];
        i := i + 3;
      } else {
        AppendToStep(bytes, c, QueryDecoded(value[i + 1..]));
        bytes := bytes + [c];
        i := i + 1;
      }
    }
    assert value[i..] == [] && bytes + [] == bytes;
    r := Ok(bytes);
  }

  lemma AppendToStep(bytes: string, b: char, r: Result<string, BadRequest>)
    ensures AppendTo(bytes, Prepend(b, r)) == AppendTo(bytes + [b], r)
  {
    if r.Ok? {
      Text.Reassociate(bytes, [b], r.value);
    }
  }

  lemma AppendToNothing(r: Result<string, BadRequest>)
    ensures AppendTo([], r) == r
  {
    if r.Ok? {
      assert [] + r.value == r.value;
    }
  }

  function AppendTo(bytes: string, r: Result<string, BadRequest>): Result<string, BadRequest> {
    match r
    case Ok(more) => Ok(bytes + more)
    case Err(e) => Err(e)
  }

  /** Every percent sign starts an escape. */
  predicate WellFormed(s: string) {
    forall i :: 0 <= i < |s| && s[i] == '%' ==> EscapeAt(s, i)
  }

  lemma {:induction false} WellFormedDecodes(s: string)
    ensures QueryDecoded(s).Ok? <==> WellFormed(s)
  {
    if s == [] || (s[0] == '%' && !EscapeAt(s, 0)) {
    } else {
      var n := if EscapeAt(s, 0) then 3 else 1;
      WellFormedDecodes(s[n..]);
    }
  }

  /** The two decoders give the same bytes exactly on well-formed input without '+'. */
  lemma {:induction false} DecodersAgree(s: string)
    ensures QueryDecoded(s) == Ok(Decoded(s)) <==> WellFormed(s) && '+' !in s
  {
    WellFormedDecodes(s);
    if s == [] {
    } else if WellFormed(s) {
      var n := if EscapeAt(s, 0) then 3 else 1;
      WellFormedDecodes(s[n..]);
      DecodersAgree(s[n..]);
      assert s == s[..n] + s[n..];
      assert '+' in s[..n] <==> s[0] == '+';
      var b := if s[0] == '%' then EscapedByte(s, 0) else if s[0] == '+' then ' ' else s[0];
      var b' := if s[0] == '%' then EscapedByte(s, 0) else s[0];
      ConsEqual(b, QueryDecoded(s[n..]).value, b', Decoded(s[n..]));
    }
  }

  lemma ConsEqual(a: char, x: string, b: char, y: string)
    ensures [a] + x == [b] + y <==> a == b && x == y
  {
    assert ([a] + x)[1..] == x && ([b] + y)[1..] == y;
    assert ([a] + x)[0] == a && ([b] + y)[0] == b;
  }

  /** enc begins with an escape of b: a percent sign and the two digits of its value, sixteens first. */
  predicate Escapes(enc: string, b: char) {
    |enc| >= 3 && enc[0] == '%'
    && exists i, j :: 0 <= i < 16 && 0 <= j < 16 && HexDigit(enc[1], i) && HexDigit(enc[2], j) && (b as int) == 16 * i + j
  }

  lemma EscapesExact(enc: string, b: char)
    ensures Escapes(enc, b) <==> EscapeAt(enc, 0) && EscapedByte(enc, 0) == b
  {
    if Escapes(enc, b) {
      var i, j :| 0 <= i < 16 && 0 <= j < 16 && HexDigit(enc[1], i) && HexDigit(enc[2], j) && (b as int) == 16 * i + j;
      DigitValue(enc[1], i);
      DigitValue(enc[2], j);
    }
    if EscapeAt(enc, 0) && EscapedByte(enc, 0) == b {
      HexValExact(enc[1]);
      HexValExact(enc[2]);
      assert HexDigit(enc[1], HexVal(enc[1]).value) && HexDigit(enc[2], HexVal(enc[2]).value);
    }
  }

  lemma DigitValue(c: char, i: int)
    requires HexDigit(c, i)
    ensures HexVal(c) == Some(i)
  {
    HexValExact(c);
  }

  /** What an escape stands for, in both decoders: the byte its two digits spell; where one of the two
      characters is no digit, the percent sign stays in a path and is an error in a query. */
  lemma EscapeMeaning(c: char, d: char, rest: string)
    ensures forall i, j :: 0 <= i < 16 && 0 <= j < 16 && HexDigit(c, i) && HexDigit(d, j) ==>
              Decoded("%" + [c, d] + rest) == [(16 * i + j) as char] + Decoded(rest)
              && QueryDecoded("%" + [c, d] + rest) == Prepend((16 * i + j) as char, QueryDecoded(rest))
    ensures (c !in LOWER_HEX && c !in UPPER_HEX) || (d !in LOWER_HEX && d !in UPPER_HEX) ==>
              Decoded("%" + [c, d] + rest) == "%" + Decoded([c, d] + rest)
              && QueryDecoded("%" + [c, d] + rest) == Err(InvalidPercentEncoding)
  {
    var s := "%" + [c, d] + rest;
    HexValExact(c);
    HexValExact(d);
    assert s[0] == '%' && s[1] == c && s[2] == d && s[1..] == [c, d] + rest && s[3..] == rest;
    forall i, j | 0 <= i < 16 && 0 <= j < 16 && HexDigit(c, i) && HexDigit(d, j)
      ensures EscapeAt(s, 0) && EscapedByte(s, 0) == (16 * i + j) as char
    {
      assert Escapes(s, (16 * i + j) as char);
      EscapesExact(s, (16 * i + j) as char);
    }
  }

  /** enc is an encoding of s: every character stands for itself, unless it must be escaped, or is
      written as an escape with digits of either case; a space may be a plus sign where that is
      allowed. Each occurrence is free in its choice. */
  predicate Encodes(enc: string, s: string, escaped: set<char>, plus: bool) {
    if s == "" then enc == ""
    else
      || (enc != "" && enc[0] == s[0] && s[0] !in escaped && Encodes(enc[1..], s[1..], escaped, plus))
      || (Escapes(enc, s[0]) && Encodes(enc[3..], s[1..], escaped, plus))
      || (plus && enc != "" && enc[0] == '+' && s[0] == ' ' && Encodes(enc[1..], s[1..], escaped, plus))
  }

  /** Path decoding undoes every encoding that escapes '%'. */
  lemma {:induction false} DecodeEncode(enc: string, s: string, escaped: set<char>)
    requires '%' in escaped && Encodes(enc, s, escaped, false)
    ensures Decoded(enc) == s
  {
    if s == "" {
    } else {
      assert s == [s[0]] + s[1..];
      EscapesExact(enc, s[0]);
      if Escapes(enc, s[0]) && Encodes(enc[3..], s[1..], escaped, false) {
        DecodeEncode(enc[3..], s[1..], escaped);
      } else {
        DecodeEncode(enc[1..], s[1..], escaped);
      }
    }
  }

  /** Query decoding undoes every encoding that escapes '%' and '+', also one that writes spaces as '+'. */
  lemma {:induction false} QueryDecodeEncode(enc: string, s: string, escaped: set<char>, plus: bool)
    requires '%' in escaped && '+' in escaped && Encodes(enc, s, escaped, plus)
    ensures QueryDecoded(enc) == Ok(s)
  {
    if s == "" {
    } else {
      assert s == [s[0]] + s[1..];
      EscapesExact(enc, s[0]);
      if Escapes(enc, s[0]) && Encodes(enc[3..], s[1..], escaped, plus) {
        QueryDecodeEncode(enc[3..], s[1..], escaped, plus);
      } else {
        QueryDecodeEncode(enc[1..], s[1..], escaped, plus);
      }
    }
  }

  /** A character that must be escaped, other than the ones escapes are made of, is in no encoding. */
  lemma {:induction false} EncodeAvoids(enc: string, s: string, escaped: set<char>, plus: bool, b: char)
    requires b in escaped && b != '%' && b !in LOWER_HEX && b !in UPPER_HEX && (b == '+' ==> !plus)
    requires Encodes(enc, s, escaped, plus)
    ensures b !in enc
  {
    if s == "" {
    } else if Escapes(enc, s[0]) && Encodes(enc[3..], s[1..], escaped, plus) {
      EncodeAvoids(enc[3..], s[1..], escaped, plus, b);
      assert enc[1] in LOWER_HEX || enc[1] in UPPER_HEX;
      assert enc[2] in LOWER_HEX || enc[2] in UPPER_HEX;
      assert enc == enc[..3] + enc[3..] && enc[..3] == [enc[0], enc[1], enc[2]];
    } else {
      EncodeAvoids(enc[1..], s[1..], escaped, plus, b);
      assert enc == [enc[0]] + enc[1..];
    }
  }

  function Digit(n: nat): (c: char)
    requires n < 16
    ensures HexDigit(c, n)
  {
    UPPER_HEX[n]
  }

  function Escaped(b: char): string
    requires (b as int) < 256
  {
    ['%', Digit((b as int) / 16), Digit((b as int) % 16)]
  }

  /** Every text of bytes has an encoding, whatever must be escaped. */
  lemma {:induction false} SomeEncoding(s: string, escaped: set<char>, plus: bool) returns (enc: string)
    requires forall i :: 0 <= i < |s| ==> (s[i] as int) < 256
    ensures Encodes(enc, s, escaped, plus)
  {
    if s == "" {
      enc := "";
    } else {
      var rest := SomeEncoding(s[1..], escaped, plus);
      enc := Escaped(s[0]) + rest;
      assert enc[3..] == rest;
      assert HexDigit(enc[1], (s[0] as int) / 16) && HexDigit(enc[2], (s[0] as int) % 16);
    }
  }

  /** Text that does not use '%' or '+' is its own query decoding. */
  lemma {:induction false} QueryDecodedPlain(s: string)
    requires '%' !in s && '+' !in s
    ensures QueryDecoded(s) == Ok(s)
  {
    if s == [] {
    } else {
      QueryDecodedPlain(s[1..]);
      assert [s[0]] + s[1..] == s;
    }
  }
}
