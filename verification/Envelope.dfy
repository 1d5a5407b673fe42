/** The version 1 envelope around a WebSocket payload: a header of 17 bytes with little-endian
    fields, then the payload. Three places of the program know it: the Rust validator, the Julia
    builder and the builder inside the Axis stream thread. */
module Envelope {
  import opened Basics

  type Octet = n: int | 0 <= n < 256

  const HEADER_LEN := 17
  const VERSION_V1: Octet := 1
  const PAYLOAD_LIMIT: nat := 0x1_0000_0000

  function Power256(k: nat): (p: nat)
    ensures p > 0
  {
    if k == 0 then 1 else 256 * Power256(k - 1)
  }

  /** to_le_bytes: the low bytes of n, least significant first; higher bytes are cut off. */
  function LittleEndian(n: nat, width: nat): (bytes: seq<Octet>)
    ensures |bytes| == width
  {
    if width == 0 then [] else [n % 256] + LittleEndian(n / 256, width - 1)
  }

  /** from_le_bytes. */
  function FromLittleEndian(bytes: seq<Octet>): (n: nat)
    ensures n < Power256(|bytes|)
  {
    if bytes == [] then 0 else bytes[0] + 256 * FromLittleEndian(bytes[1..])
  }

  datatype Header = Header(version: Octet, contentType: nat, flags: nat, timestamp: nat, payloadLen: nat)

  /** The fields fit the integer widths the program gives them. */
  predicate InRange(contentType: nat, flags: nat, timestamp: nat) {
    contentType < Power256(2) && flags < Power256(2) && timestamp < Power256(8)
  }

  function Parse(frame: seq<Octet>): (r: Option<Header>) {
    if |frame| < HEADER_LEN then None
    else
      Some(Header(frame[0],
                  FromLittleEndian(frame[1..3]),
                  FromLittleEndian(frame[3..5]),
                  FromLittleEndian(frame[5..13]),
                  FromLittleEndian(frame[13..17])))
  }

  /** The subtraction is one of unsigned machine integers: it must not go below zero. */
  predicate IsValid(header: Header, total: nat)
    requires HEADER_LEN <= total
  {
    header.version == VERSION_V1 && header.payloadLen == total - HEADER_LEN
  }

  predicate Validate(frame: seq<Octet>) {
    match Parse(frame)
    case None => false
    case Some(header) => IsValid(header, |frame|)
  }

  /** The layout both builders produce; a length of 2^32 or more loses its high part. */
  function Encode(contentType: nat, flags: nat, timestamp: nat, payload: seq<Octet>): (frame: seq<Octet>)
    ensures |frame| == HEADER_LEN + |payload|
  {
    [VERSION_V1] + LittleEndian(contentType, 2) + LittleEndian(flags, 2) + LittleEndian(timestamp, 8)
    + LittleEndian(|payload|, 4) + payload
  }

  lemma {:induction false} DecodeEncode(n: nat, width: nat)
    ensures FromLittleEndian(LittleEndian(n, width)) == n % Power256(width)
  {
    if width == 0 {
    } else {
      DecodeEncode(n / 256, width - 1);
      assert LittleEndian(n, width)[1..] == LittleEndian(n / 256, width - 1);
      ModuloStep(n, Power256(width - 1));
    }
  }

  lemma ModuloStep(n: nat, m: nat)
    requires m > 0
    ensures n % 256 + 256 * ((n / 256) % m) == n % (256 * m)
  {
    var q, r := n / 256 / m, n % 256 + 256 * (n / 256 % m);
    assert n / 256 == q * m + n / 256 % m;
    assert n == q * (256 * m) + r;
    assert n / 256 % m <= m - 1;
    assert 0 <= r < 256 * m;
    ModuloUnique(n, 256 * m, q, r);
  }

  lemma ModuloUnique(n: nat, m: nat, q: nat, r: nat)
    requires m > 0 && n == q * m + r && r < m
    ensures n % m == r
  {
    var d := n / m - q;
    assert n == (n / m) * m + n % m;
    assert d * m == r - n % m;
    assert d == 0 by {
      assert d >= 1 ==> d * m >= m;
      assert d <= -1 ==> d * m + m <= 0;
    }
  }

  lemma {:induction false} EncodeDecode(bytes: seq<Octet>)
    ensures LittleEndian(FromLittleEndian(bytes), |bytes|) == bytes
  {
    if bytes == [] {
    } else {
      EncodeDecode(bytes[1..]);
      var rest := FromLittleEndian(bytes[1..]);
      assert (bytes[0] + 256 * rest) % 256 == bytes[0] && (bytes[0] + 256 * rest) / 256 == rest;
    }
  }

  lemma FieldPositions(v: seq<Octet>, a: seq<Octet>, b: seq<Octet>, c: seq<Octet>, d: seq<Octet>, p: seq<Octet>)
    requires |v| == 1 && |a| == 2 && |b| == 2 && |c| == 8 && |d| == 4
    ensures var f := v + a + b + c + d + p;
            f[0] == v[0] && f[1..3] == a && f[3..5] == b && f[5..13] == c && f[13..17] == d && f[17..] == p
  {
  }

  lemma ParseLaidOut(v: seq<Octet>, a: seq<Octet>, b: seq<Octet>, c: seq<Octet>, d: seq<Octet>, p: seq<Octet>)
    requires |v| == 1 && |a| == 2 && |b| == 2 && |c| == 8 && |d| == 4
    ensures Parse(v + a + b + c + d + p)
         == Some(Header(v[0], FromLittleEndian(a), FromLittleEndian(b), FromLittleEndian(c), FromLittleEndian(d)))
    ensures (v + a + b + c + d + p)[HEADER_LEN..] == p
  {
    FieldPositions(v, a, b, c, d, p);
  }

  /** A number that fits its width survives the trip through bytes. */
  lemma DecodeFitting(n: nat, width: nat)
    requires n < Power256(width)
    ensures FromLittleEndian(LittleEndian(n, width)) == n
  {
    DecodeEncode(n, width);
    ModuloUnique(n, Power256(width), 0, n);
  }

  lemma Widths()
    ensures Power256(2) == 0x1_0000 && Power256(4) == PAYLOAD_LIMIT && Power256(8) == 0x1_0000_0000_0000_0000
  {
    assert Power256(3) == 0x100_0000;
    assert Power256(4) == PAYLOAD_LIMIT;
    assert Power256(5) == 0x100_0000_0000;
    assert Power256(6) == 0x1_0000_0000_0000;
    assert Power256(7) == 0x100_0000_0000_0000;
  }

  /** What the Rust parser reads in anything laid out by Encode. */
  lemma ParseEncode(contentType: nat, flags: nat, timestamp: nat, payload: seq<Octet>)
    requires InRange(contentType, flags, timestamp)
    ensures var frame := Encode(contentType, flags, timestamp, payload);
            && Parse(frame) == Some(Header(VERSION_V1, contentType, flags, timestamp, |payload| % PAYLOAD_LIMIT))
            && frame[HEADER_LEN..] == payload
            && (Validate(frame) <==> |payload| < PAYLOAD_LIMIT)
  {
    ParseLaidOut([VERSION_V1], LittleEndian(contentType, 2), LittleEndian(flags, 2),
                 LittleEndian(timestamp, 8), LittleEndian(|payload|, 4), payload);
    DecodeFitting(contentType, 2);
    DecodeFitting(flags, 2);
    DecodeFitting(timestamp, 8);
    DecodeEncode(|payload|, 4);
    Widths();
  }

  /** Every valid frame is the encoding of the fields the parser reads in it and of the bytes
      after the header, and those fields are in range. */
  lemma EncodeParse(frame: seq<Octet>)
    requires Validate(frame)
    ensures var h := Parse(frame).value;
            && InRange(h.contentType, h.flags, h.timestamp)
            && h.payloadLen == |frame[HEADER_LEN..]| < PAYLOAD_LIMIT
            && frame == Encode(h.contentType, h.flags, h.timestamp, frame[HEADER_LEN..])
  {
    EncodeDecode(frame[1..3]);
    EncodeDecode(frame[3..5]);
    EncodeDecode(frame[5..13]);
    EncodeDecode(frame[13..17]);
    Widths();
    assert frame == [frame[0]] + frame[1..3] + frame[3..5] + frame[5..13] + frame[13..17] + frame[17..];
  }

  /** Two encodings are the same frame only when every field and the payload are the same. */
  lemma EncodeInjective(c0: nat, f0: nat, t0: nat, p0: seq<Octet>, c1: nat, f1: nat, t1: nat, p1: seq<Octet>)
    requires InRange(c0, f0, t0) && InRange(c1, f1, t1)
    ensures Encode(c0, f0, t0, p0) == Encode(c1, f1, t1, p1) <==> c0 == c1 && f0 == f1 && t0 == t1 && p0 == p1
  {
    ParseEncode(c0, f0, t0, p0);
    ParseEncode(c1, f1, t1, p1);
  }

  /** The Julia builder: it refuses a payload whose length does not fit 32 bits, and fills a
      fresh byte vector field by field. */
  method BuildEnvelopeV1(payload: seq<Octet>, contentType: nat, flags: nat, timestamp: nat)
    returns (frame: array?<Octet>)
    requires InRange(contentType, flags, timestamp)
    ensures frame == null <==> |payload| >= PAYLOAD_LIMIT
    ensures frame != null ==> fresh(frame) && frame[..] == Encode(contentType, flags, timestamp, payload)
    ensures frame != null ==> Validate(frame[..])
  {
    if |payload| > 0xFFFF_FFFF {
      return null;
    }
    var data := new Octet[HEADER_LEN + |payload|];
    data[0] := VERSION_V1;
    assert data[..1] == [VERSION_V1];
    CopyInto(data, 1, LittleEndian(contentType, 2));
    CopyInto(data, 3, LittleEndian(flags, 2));
    CopyInto(data, 5, LittleEndian(timestamp, 8));
    CopyInto(data, 13, LittleEndian(|payload|, 4));
    CopyInto(data, HEADER_LEN, payload);
    ParseEncode(contentType, flags, timestamp, payload);
    frame := data;
  }

  /** Stores the bytes at a position and leaves the rest of the vector as it was. */
  method CopyInto(data: array<Octet>, at: nat, bytes: seq<Octet>)
    requires at + |bytes| <= data.Length
    modifies data
    ensures data[..at + |bytes|] == old(data[..at]) + bytes
    ensures data[at + |bytes|..] == old(data[at + |bytes|..])
  {
    for i := 0 to |bytes|
      invariant data[..at + i] == old(data[..at]) + bytes[..i]
      invariant data[at + i..] == old(data[at + i..])
    {
      data[at + i] := bytes[i];
    }
  }

  /** The Axis stream builder: content type 1, no flags, and the length cast to 32 bits without
      a check. The frame it sends is valid exactly when the cast loses nothing. */
  method BuildAxisFrame(payload: seq<Octet>, timestamp: nat) returns (frame: seq<Octet>)
    requires timestamp < Power256(8)
    ensures frame == Encode(1, 0, timestamp, payload)
    ensures Validate(frame) <==> |payload| < PAYLOAD_LIMIT
  {
    frame := [VERSION_V1];
    frame := frame + LittleEndian(1, 2);
    frame := frame + LittleEndian(0, 2);
    frame := frame + LittleEndian(timestamp, 8);
    frame := frame + LittleEndian(|payload| % PAYLOAD_LIMIT, 4);
    frame := frame + payload;
    CastIsTruncation(|payload|);
    Widths();
    ParseEncode(1, 0, timestamp, payload);
  }

  lemma CastIsTruncation(n: nat)
    ensures LittleEndian(n % PAYLOAD_LIMIT, 4) == LittleEndian(n, 4)
  {
    Widths();
    DecodeEncode(n, 4);
    DecodeEncode(n % PAYLOAD_LIMIT, 4);
    EncodeDecode(LittleEndian(n, 4));
    EncodeDecode(LittleEndian(n % PAYLOAD_LIMIT, 4));
  }

  lemma DivideTwice(n: nat, m: nat)
    requires m > 0
    ensures n / 256 / m == n / (256 * m)
  {
    var q, r := n / 256 / m, n % 256 + 256 * (n / 256 % m);
    assert n / 256 == q * m + n / 256 % m;
    assert n == q * (256 * m) + r;
    assert n / 256 % m <= m - 1;
    assert 0 <= r < 256 * m;
    QuotientUnique(n, 256 * m, q, r);
  }

  lemma QuotientUnique(n: nat, m: nat, q: nat, r: nat)
    requires m > 0 && n == q * m + r && r < m
    ensures n / m == q
  {
    var d := n / m - q;
    assert n == (n / m) * m + n % m;
    assert d * m == r - n % m;
    assert d == 0 by {
      assert d >= 1 ==> d * m >= m;
      assert d <= -1 ==> d * m + m <= 0;
    }
  }

  /** Byte k of a little-endian number is its digit k to the base 256. */
  lemma {:induction false} LittleEndianAt(n: nat, width: nat, k: nat)
    requires k < width
    ensures LittleEndian(n, width)[k] == n / Power256(k) % 256
  {
    if k == 0 {
    } else {
      LittleEndianAt(n / 256, width - 1, k - 1);
      DivideTwice(n, Power256(k - 1));
    }
  }

  /** The bytes of a built frame: the version 1, the four fields with the low byte first, the payload. */
  lemma FrameBytes(contentType: nat, flags: nat, timestamp: nat, payload: seq<Octet>)
    ensures var f := Encode(contentType, flags, timestamp, payload);
            && |f| == 17 + |payload| && f[0] == 1 && f[17..] == payload
            && (forall k :: 0 <= k < 2 ==> f[1 + k] == contentType / Power256(k) % 256)
            && (forall k :: 0 <= k < 2 ==> f[3 + k] == flags / Power256(k) % 256)
            && (forall k :: 0 <= k < 8 ==> f[5 + k] == timestamp / Power256(k) % 256)
            && (forall k :: 0 <= k < 4 ==> f[13 + k] == |payload| / Power256(k) % 256)
  {
    var a, b, c, d := LittleEndian(contentType, 2), LittleEndian(flags, 2), LittleEndian(timestamp, 8), LittleEndian(|payload|, 4);
    FieldPositions([VERSION_V1], a, b, c, d, payload);
    var f := Encode(contentType, flags, timestamp, payload);
    forall k | 0 <= k < 2 ensures f[1 + k] == contentType / Power256(k) % 256 && f[3 + k] == flags / Power256(k) % 256 {
      LittleEndianAt(contentType, 2, k);
      LittleEndianAt(flags, 2, k);
      assert f[1..3][k] == f[1 + k] && f[3..5][k] == f[3 + k];
    }
    forall k | 0 <= k < 8 ensures f[5 + k] == timestamp / Power256(k) % 256 {
      LittleEndianAt(timestamp, 8, k);
      assert f[5..13][k] == f[5 + k];
    }
    forall k | 0 <= k < 4 ensures f[13 + k] == |payload| / Power256(k) % 256 {
      LittleEndianAt(|payload|, 4, k);
      assert f[13..17][k] == f[13 + k];
    }
  }
}
