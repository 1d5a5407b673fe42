module Basics {
  datatype Option<+T> = None | Some(value: T)

  datatype Result<+T, +E> = Ok(value: T) | Err(error: E)
}

/** Searching, splitting, joining and trimming, as the Rust and Julia string libraries do it.
    A string is a sequence of byte-valued characters; the white space is the ASCII one. */
module Text {
  import opened Basics

  /** pat occurs in s at position i. */
  predicate At(s: string, i: int, pat: string) {
    0 <= i && i + |pat| <= |s| && forall k :: 0 <= k < |pat| ==> s[i + k] == pat[k]
  }

  /** The first occurrence of pat at or after a position. */
  function Find(s: string, pat: string, from: nat): (r: Option<nat>)
    requires from <= |s|
    ensures r.Some? ==> from <= r.value && At(s, r.value, pat)
    ensures forall j :: from <= j && (r.Some? ==> j < r.value) ==> !At(s, j, pat)
    decreases |s| - from
  {
    if At(s, from, pat) then Some(from)
    else if from == |s| then None
    else Find(s, pat, from + 1)
  }

  /** A separator whose first character does not come back inside it, so that two of its
      occurrences never overlap. */
  predicate Separator(sep: string) {
    0 < |sep| && forall k :: 0 < k < |sep| ==> sep[k] != sep[0]
  }

  /** Rust's split, and Julia's eachsplit with empty parts kept. */
  function Split(s: string, sep: string): (parts: seq<string>)
    requires 0 < |sep|
    ensures |parts| > 0
    decreases |s|
  {
    var first := Find(s, sep, 0);
    if first == None then [s]
    else [s[..first.value]] + Split(s[first.value + |sep|..], sep)
  }

  /** The parts a scan that skips empty ones goes through. */
  function NonEmpty(parts: seq<string>): (r: seq<string>)
    ensures forall p :: p in r <==> p in parts && p != ""
  {
    if parts == [] then []
    else (if parts[0] == "" then [] else [parts[0]]) + NonEmpty(parts[1..])
  }

  function Join(parts: seq<string>, sep: string): string {
    if parts == [] then ""
    else if |parts| == 1 then parts[0]
    else parts[0] + sep + Join(parts[1..], sep)
  }

  predicate Whitespace(c: char) {
    c == ' ' || '\t' <= c <= '\r'
  }

  const BLANKS := " \t\n\U{0B}\U{0C}\r"

  lemma WhitespaceExact(c: char)
    ensures Whitespace(c) <==> c in BLANKS
  {
  }

  function TrimStart(s: string): string {
    if s != "" && Whitespace(s[0]) then TrimStart(s[1..]) else s
  }

  function TrimEnd(s: string): string {
    if s != "" && Whitespace(s[|s| - 1]) then TrimEnd(s[..|s| - 1]) else s
  }

  function Trim(s: string): string {
    TrimEnd(TrimStart(s))
  }

  function LowerChar(c: char): char {
    if 'A' <= c <= 'Z' then ((c as int) + 32) as char else c
  }

  function UpperChar(c: char): char {
    if 'a' <= c <= 'z' then ((c as int) - 32) as char else c
  }

  const CAPITALS := "ABCDEFGHIJKLMNOPQRSTUVWXYZ"
  const SMALLS := "abcdefghijklmnopqrstuvwxyz"

  lemma CapitalsExact(c: char)
    ensures c in CAPITALS <==> 'A' <= c <= 'Z'
  {
    assert forall i :: 0 <= i < 26 ==> (CAPITALS[i] as int) == 65 + i;
    if 'A' <= c <= 'Z' {
      assert CAPITALS[(c as int) - 65] == c;
    }
  }

  lemma SmallsExact(c: char)
    ensures c in SMALLS <==> 'a' <= c <= 'z'
  {
    assert forall i :: 0 <= i < 26 ==> (SMALLS[i] as int) == 97 + i;
    if 'a' <= c <= 'z' {
      assert SMALLS[(c as int) - 97] == c;
    }
  }

  /** Letter by letter, and nothing else changes. */
  lemma CaseExact(c: char)
    ensures forall i :: 0 <= i < 26 ==> LowerChar(CAPITALS[i]) == SMALLS[i] && UpperChar(SMALLS[i]) == CAPITALS[i]
    ensures c !in CAPITALS ==> LowerChar(c) == c
    ensures c !in SMALLS ==> UpperChar(c) == c
  {
    CapitalsExact(c);
    SmallsExact(c);
  }

  function Lower(s: string): (r: string)
    ensures |r| == |s| && forall i :: 0 <= i < |s| ==> r[i] == LowerChar(s[i])
  {
    seq(|s|, i requires 0 <= i < |s| => LowerChar(s[i]))
  }

  function Upper(s: string): (r: string)
    ensures |r| == |s| && forall i :: 0 <= i < |s| ==> r[i] == UpperChar(s[i])
  {
    seq(|s|, i requires 0 <= i < |s| => UpperChar(s[i]))
  }

  lemma FindIs(s: string, pat: string, i: nat)
    requires At(s, i, pat) && forall j :: 0 <= j < i ==> !At(s, j, pat)
    ensures Find(s, pat, 0) == Some(i)
  {
    assert !(Find(s, pat, 0).Some? && Find(s, pat, 0).value > i);
  }

  lemma FindNone(s: string, pat: string)
    requires forall j :: 0 <= j <= |s| ==> !At(s, j, pat)
    ensures Find(s, pat, 0) == None
  {
  }

  /** Occurrences in a slice are occurrences in the whole. */
  lemma AtSlice(s: string, lo: nat, hi: nat, i: int, pat: string)
    requires lo <= hi <= |s| && 0 <= i
    ensures At(s[lo..hi], i, pat) <==> At(s, lo + i, pat) && lo + i + |pat| <= hi
  {
  }

  /** The first separator of a + sep + b is a's own first one, or the one in the middle. */
  lemma FindConcat(a: string, b: string, sep: string)
    requires Separator(sep)
    ensures Find(a + sep + b, sep, 0) ==
            (if Find(a, sep, 0).Some? then Find(a, sep, 0) else Some(|a|))
  {
    var s := a + sep + b;
    assert s[..|a|] == a;
    var i := if Find(a, sep, 0).Some? then Find(a, sep, 0).value else |a|;
    AtSlice(s, 0, |a|, i, sep);
    forall j | 0 <= j < i ensures !At(s, j, sep) {
      AtSlice(s, 0, |a|, j, sep);
      if |a| < j + |sep| <= |s| {
        assert s[j + (|a| - j)] == sep[0] != sep[|a| - j];
      }
    }
    FindIs(s, sep, i);
  }

  /** Everything before the first separator, and everything after it. */
  lemma CutAtFirst(s: string, sep: string) returns (head: string, tail: string)
    requires Separator(sep) && Find(s, sep, 0).Some?
    ensures s == head + sep + tail && Find(head, sep, 0) == None
    ensures Split(s, sep) == [head] + Split(tail, sep)
  {
    var i := Find(s, sep, 0).value;
    head, tail := s[..i], s[i + |sep|..];
    forall j | 0 <= j <= i ensures !At(head, j, sep) {
      AtSlice(s, 0, i, j, sep);
    }
  }

  lemma SplitStep(head: string, tail: string, sep: string)
    requires Separator(sep) && Find(head, sep, 0) == None
    ensures Split(head + sep + tail, sep) == [head] + Split(tail, sep)
  {
    FindConcat(head, tail, sep);
    DropMiddle(head, sep, tail);
  }

  lemma DropMiddle(a: string, b: string, c: string)
    ensures (a + b + c)[..|a|] == a && (a + b + c)[|a| + |b|..] == c
  {
  }

  lemma Reassociate(a: string, b: string, c: string)
    ensures a + b + c == a + (b + c)
  {
  }

  lemma {:induction false} SplitConcat(a: string, b: string, sep: string)
    requires Separator(sep)
    ensures Split(a + sep + b, sep) == Split(a, sep) + Split(b, sep)
    decreases |a|
  {
    if Find(a, sep, 0) == None {
      SplitStep(a, b, sep);
    } else {
      var head, tail := CutAtFirst(a, sep);
      SplitStep(head, tail + sep + b, sep);
      SplitConcat(tail, b, sep);
      Reassociate(head + sep, tail, sep);
      Reassociate(head + sep, tail + sep, b);
    }
  }

  lemma SplitWhole(s: string, sep: string)
    requires 0 < |sep| && Find(s, sep, 0) == None
    ensures Split(s, sep) == [s]
  {
  }

  /** No part of a split contains the separator. */
  lemma {:induction false} SplitClean(s: string, sep: string)
    requires 0 < |sep|
    ensures forall p :: p in Split(s, sep) ==> Find(p, sep, 0) == None
    decreases |s|
  {
    match Find(s, sep, 0)
    case None =>
    case Some(i) =>
      forall j | 0 <= j <= i ensures !At(s[..i], j, sep) {
        AtSlice(s, 0, i, j, sep);
      }
      SplitClean(s[i + |sep|..], sep);
  }

  lemma {:induction false} SplitChars(s: string, sep: string)
    requires 0 < |sep|
    ensures forall p, c :: p in Split(s, sep) && c in p ==> c in s
    decreases |s|
  {
    if Find(s, sep, 0) == None {
    } else {
      SplitChars(s[Find(s, sep, 0).value + |sep|..], sep);
    }
  }

  /** Splitting on one character: the parts are exactly the strings free of it. */
  lemma FindChar(s: string, c: char)
    ensures Find(s, [c], 0) == None <==> c !in s
    ensures Find(s, [c], 0).Some? ==> s[Find(s, [c], 0).value] == c && c !in s[..Find(s, [c], 0).value]
  {
    assert [c][0] == c;
    assert forall i :: 0 <= i < |s| ==> (At(s, i, [c]) <==> s[i] == c);
  }

  lemma {:induction false} SplitJoin(parts: seq<string>, sep: string)
    requires Separator(sep) && |parts| > 0
    requires forall p :: p in parts ==> Find(p, sep, 0) == None
    ensures Split(Join(parts, sep), sep) == parts
  {
    if |parts| == 1 {
      SplitWhole(parts[0], sep);
    } else {
      SplitJoin(parts[1..], sep);
      SplitConcat(parts[0], Join(parts[1..], sep), sep);
      SplitWhole(parts[0], sep);
    }
  }

  lemma {:induction false} JoinSplit(s: string, sep: string)
    requires 0 < |sep|
    ensures Join(Split(s, sep), sep) == s
    decreases |s|
  {
    match Find(s, sep, 0)
    case None =>
    case Some(i) =>
      JoinSplit(s[i + |sep|..], sep);
      assert s == s[..i] + sep + s[i + |sep|..];
  }

  lemma {:induction false} NonEmptyConcat(a: seq<string>, b: seq<string>)
    ensures NonEmpty(a + b) == NonEmpty(a) + NonEmpty(b)
  {
    if a == [] {
      assert a + b == b;
    } else {
      var head := if a[0] == "" then [] else [a[0]];
      NonEmptyConcat(a[1..], b);
      assert (a + b)[0] == a[0] && (a + b)[1..] == a[1..] + b;
      assert NonEmpty(a + b) == head + NonEmpty(a[1..] + b);
    }
  }

  lemma {:induction false} NonEmptyIdentity(a: seq<string>)
    requires "" !in a
    ensures NonEmpty(a) == a
  {
    if a == [] {
    } else {
      NonEmptyIdentity(a[1..]);
    }
  }

  lemma NonEmptyButLast(parts: seq<string>)
    requires |parts| > 0 && parts[|parts| - 1] == "" && "" !in parts[..|parts| - 1]
    ensures NonEmpty(parts) == parts[..|parts| - 1]
  {
    var lines := parts[..|parts| - 1];
    NonEmptyConcat(lines, [""]);
    NonEmptyIdentity(lines);
    assert parts == lines + [""];
  }

  /** What a trimmed string is: a slice with no white space at either end. */
  lemma {:induction false} TrimStartSlice(s: string) returns (lo: nat)
    ensures lo <= |s| && TrimStart(s) == s[lo..]
    ensures TrimStart(s) == "" || !Whitespace(TrimStart(s)[0])
    ensures forall i :: 0 <= i < lo ==> Whitespace(s[i])
  {
    if s != "" && Whitespace(s[0]) {
      lo := TrimStartSlice(s[1..]);
      lo := lo + 1;
    } else {
      lo := 0;
    }
  }

  lemma {:induction false} TrimEndSlice(s: string) returns (hi: nat)
    ensures hi <= |s| && TrimEnd(s) == s[..hi]
    ensures hi == 0 || !Whitespace(s[hi - 1])
    ensures forall i :: hi <= i < |s| ==> Whitespace(s[i])
  {
    if s != "" && Whitespace(s[|s| - 1]) {
      hi := TrimEndSlice(s[..|s| - 1]);
    } else {
      hi := |s|;
    }
  }

  lemma TrimSlice(s: string) returns (lo: nat, hi: nat)
    ensures lo <= hi <= |s| && Trim(s) == s[lo..hi]
    ensures lo < hi ==> !Whitespace(s[lo]) && !Whitespace(s[hi - 1])
    ensures forall i :: 0 <= i < lo || hi <= i < |s| ==> Whitespace(s[i])
  {
    lo := TrimStartSlice(s);
    hi := TrimEndSlice(s[lo..]);
    hi := lo + hi;
  }

  /** Blanks may stand around the text, and none at its ends. */
  predicate Blank(s: string) {
    forall i :: 0 <= i < |s| ==> s[i] in BLANKS
  }

  predicate Trimmed(s: string) {
    s != "" ==> s[0] !in BLANKS && s[|s| - 1] !in BLANKS
  }

  lemma TrimAround(pre: string, s: string, post: string)
    requires Blank(pre) && Blank(post) && Trimmed(s)
    ensures Trim(pre + s + post) == s
  {
    var whole := pre + s + post;
    var lo, hi := TrimSlice(whole);
    forall i | 0 <= i < |whole| ensures Whitespace(whole[i]) <==> whole[i] in BLANKS {
      WhitespaceExact(whole[i]);
    }
    if s == "" {
      assert forall i :: 0 <= i < |whole| ==> whole[i] in BLANKS;
    } else {
      assert whole[|pre|] == s[0] && whole[|pre| + |s| - 1] == s[|s| - 1];
      assert lo < hi ==> lo >= |pre| && hi <= |pre| + |s|;
      assert whole[|pre|..|pre| + |s|] == s;
    }
  }

  /** What trimming is. */
  lemma TrimExact(s: string, t: string)
    ensures Trim(s) == t <==> exists pre, post :: s == pre + t + post && Blank(pre) && Blank(post) && Trimmed(t)
  {
    if pre, post :| s == pre + t + post && Blank(pre) && Blank(post) && Trimmed(t) {
      TrimAround(pre, t, post);
    }
    var pre, post := TrimParts(s);
  }

  lemma TrimParts(s: string) returns (pre: string, post: string)
    ensures s == pre + Trim(s) + post && Blank(pre) && Blank(post) && Trimmed(Trim(s))
  {
    var lo, hi := TrimSlice(s);
    forall i | 0 <= i < |s| ensures Whitespace(s[i]) <==> s[i] in BLANKS {
      WhitespaceExact(s[i]);
    }
    pre, post := s[..lo], s[hi..];
  }

  /** Trimming twice is trimming once. */
  lemma TrimIdempotent(s: string)
    ensures Trim(Trim(s)) == Trim(s)
  {
    var lo, hi := TrimSlice(s);
  }

  lemma {:induction false} TrimStartLower(s: string)
    ensures TrimStart(Lower(s)) == Lower(TrimStart(s))
  {
    if s == "" || !Whitespace(s[0]) {
    } else {
      TrimStartLower(s[1..]);
      assert Lower(s)[1..] == Lower(s[1..]);
    }
  }

  lemma {:induction false} TrimEndLower(s: string)
    ensures TrimEnd(Lower(s)) == Lower(TrimEnd(s))
  {
    if s == "" || !Whitespace(s[|s| - 1]) {
    } else {
      TrimEndLower(s[..|s| - 1]);
      assert Lower(s)[..|s| - 1] == Lower(s[..|s| - 1]);
    }
  }

  lemma TrimLower(s: string)
    ensures Trim(Lower(s)) == Lower(Trim(s))
  {
    TrimStartLower(s);
    TrimEndLower(TrimStart(s));
  }
}

/** Decimal numbers. */
module Numbers {
  import opened Basics

  function DigitsValue(s: string): Option<nat> {
    if s == "" then Some(0)
    else
      var before, last := DigitsValue(s[..|s| - 1]), s[|s| - 1];
      if before.Some? && '0' <= last <= '9' then Some(10 * before.value + ((last as int) - ('0' as int)))
      else None
  }

  function Unsigned(s: string): string {
    if s != "" && s[0] == '+' then s[1..] else s
  }

  /** parse::<usize>() and parse::<u64>(): decimal digits after an optional plus sign, in 64 bits. */
  function ParseUsize(s: string): Option<nat> {
    var digits := Unsigned(s);
    if digits == "" then None
    else
      match DigitsValue(digits)
      case None => None
      case Some(v) => if v < 0x1_0000_0000_0000_0000 then Some(v) else None
  }

  function Decimal(n: nat): (s: string)
    ensures s != "" && s[0] != '+' && forall c :: c in s ==> '0' <= c <= '9'
  {
    (if n < 10 then "" else Decimal(n / 10)) + [((n % 10) + ('0' as int)) as char]
  }

  lemma {:induction false} DecimalValue(n: nat)
    ensures DigitsValue(Decimal(n)) == Some(n)
  {
    var before := if n < 10 then "" else Decimal(n / 10);
    if n >= 10 {
      DecimalValue(n / 10);
    }
    assert Decimal(n)[..|before|] == before;
  }

  const DIGITS := "0123456789"

  lemma DigitsExact(c: char)
    ensures c in DIGITS <==> '0' <= c <= '9'
  {
    assert forall i :: 0 <= i < 10 ==> (DIGITS[i] as int) == 48 + i;
    if '0' <= c <= '9' {
      assert DIGITS[(c as int) - 48] == c;
    }
  }

  lemma DecimalDigits(n: nat)
    ensures n < 10 ==> Decimal(n) == [DIGITS[n]]
    ensures n >= 10 ==> Decimal(n) == Decimal(n / 10) + [DIGITS[n % 10]]
  {
    assert DIGITS[n % 10] == ((n % 10) + ('0' as int)) as char;
  }

  /** A numeral of n: its decimal digits, leading zeros and a plus sign being allowed. */
  ghost predicate Numeral(s: string, n: nat) {
    exists zeros: string :: Zeros(zeros) && (s == zeros + Decimal(n) || s == "+" + (zeros + Decimal(n)))
  }

  predicate Zeros(s: string) {
    forall i :: 0 <= i < |s| ==> s[i] == '0'
  }

  lemma {:induction false} ZerosValue(zeros: string)
    requires Zeros(zeros)
    ensures DigitsValue(zeros) == Some(0)
  {
    if zeros == "" {
    } else {
      ZerosValue(zeros[..|zeros| - 1]);
    }
  }

  lemma {:induction false} NumeralValue(zeros: string, n: nat)
    requires Zeros(zeros)
    ensures DigitsValue(zeros + Decimal(n)) == Some(n)
  {
    var before := if n < 10 then "" else Decimal(n / 10);
    assert (zeros + Decimal(n))[..|zeros + Decimal(n)| - 1] == zeros + before;
    if n < 10 {
      ZerosValue(zeros);
      assert zeros + "" == zeros;
    } else {
      NumeralValue(zeros, n / 10);
    }
  }

  lemma {:induction false} ValueNumeral(s: string) returns (zeros: string)
    requires s != "" && DigitsValue(s).Some?
    ensures Zeros(zeros) && s == zeros + Decimal(DigitsValue(s).value)
  {
    var before, last := s[..|s| - 1], s[|s| - 1];
    var n := DigitsValue(s).value;
    assert s == before + [last];
    if before == "" {
      zeros := "";
    } else {
      var z := ValueNumeral(before);
      var m := DigitsValue(before).value;
      if m == 0 {
        zeros := z + "0";
        assert Decimal(0) == "0";
      } else {
        zeros := z;
        assert n / 10 == m && Decimal(n) == Decimal(m) + [last];
      }
    }
  }

  lemma UnsignedNumeral(s: string, digits: string)
    requires digits != "" && digits[0] != '+' && (s == digits || s == "+" + digits)
    ensures Unsigned(s) == digits
  {
    assert ("+" + digits)[1..] == digits;
  }

  lemma NumeralParsed(s: string, zeros: string, n: nat)
    requires Zeros(zeros) && (s == zeros + Decimal(n) || s == "+" + (zeros + Decimal(n))) && n < 0x1_0000_0000_0000_0000
    ensures ParseUsize(s) == Some(n)
  {
    NumeralValue(zeros, n);
    UnsignedNumeral(s, zeros + Decimal(n));
  }

  lemma ParsedNumeral(s: string)
    requires ParseUsize(s).Some?
    ensures Numeral(s, ParseUsize(s).value)
  {
    var zeros := ValueNumeral(Unsigned(s));
    assert s == Unsigned(s) || s == "+" + Unsigned(s);
  }

  /** Which texts are parsed, and to what. */
  lemma ParseUsizeExact(s: string, n: nat)
    ensures ParseUsize(s) == Some(n) <==> Numeral(s, n) && n < 0x1_0000_0000_0000_0000
  {
    if Numeral(s, n) && n < 0x1_0000_0000_0000_0000 {
      var zeros: string :| Zeros(zeros) && (s == zeros + Decimal(n) || s == "+" + (zeros + Decimal(n)));
      NumeralParsed(s, zeros, n);
    }
    if ParseUsize(s) == Some(n) {
      ParsedNumeral(s);
    }
  }
}
