/** The incremental request reader: it reads until the blank line, looking only at the part of the
    buffer a new read can have completed, then reads the body. What it returns is compared with a
    description of the whole byte stream that knows nothing about reads. */
module RequestReader {
  import opened Basics
  import opened Text
  import opened RequestHead
  import opened Numbers

  const HEADER_READ_LIMIT := 65536
  const BODY_READ_LIMIT := 33554432
  const HEADER_CHUNK := 4096
  const BODY_CHUNK := 16384

  datatype ReadError =
    | HeadersTooLarge | HeadersCutShort | InvalidHead | ChunkedBody | BodyTooLarge | BodyCutShort | IoFailure

  datatype Request = Request(head: Head, body: string)

  datatype Chunk = Got(bytes: string) | Failed

  /** A connection: everything the peer sends before it closes its side, how much was read, where
      each read that gave something ended, and whether a read has failed. */
  class Connection {
    const stream: string
    var pos: nat
    var failed: bool
    ghost var cuts: seq<nat>

    ghost predicate Valid()
      reads this
    {
      Reads(stream, cuts) && Last(cuts) == pos <= |stream|
    }

    constructor (stream: string)
      ensures Valid() && pos == 0 && !failed && this.stream == stream && cuts == [0]
    {
      this.stream := stream;
      pos, failed, cuts := 0, false, [0];
    }

    /** A look at what has come, without taking it: it may fail, or show any non-empty piece that
        fits; it shows nothing only at the end of the stream. */
    method Peek(max: nat) returns (r: Chunk)
      requires Valid() && max > 0 && !failed
      modifies this`failed
      ensures Valid() && (failed <==> r.Failed?)
      ensures r.Got? ==> pos + |r.bytes| <= |stream| && r.bytes == stream[pos..pos + |r.bytes|] && |r.bytes| <= max
      ensures r.Got? ==> (r.bytes == "" <==> pos == |stream|)
    {
      if * {
        failed := true;
        return Failed;
      }
      var n := SomeLength(max);
      r := Got(stream[pos..pos + n]);
    }

    /** How many bytes come at once: at least one, unless the stream has ended. */
    method SomeLength(max: nat) returns (n: nat)
      requires Valid() && max > 0
      ensures n <= max && pos + n <= |stream| && (n == 0 <==> pos == |stream|)
    {
      n := 0;
      if pos < |stream| {
        n := 1;
        while n < max && pos + n < |stream|
          invariant 1 <= n <= max && pos + n <= |stream|
        {
          if * {
            break;
          }
          n := n + 1;
        }
      }
    }

    /** One read: it may fail, or give any non-empty piece of what is left that fits; it gives
        nothing only at the end of the stream. */
    method Read(max: nat) returns (r: Chunk)
      requires Valid() && max > 0 && !failed
      modifies this
      ensures Valid() && (failed <==> r.Failed?)
      ensures r.Failed? ==> pos == old(pos)
      ensures cuts == if pos == old(pos) then old(cuts) else old(cuts) + [pos]
      ensures r.Got? ==> pos == old(pos) + |r.bytes| && r.bytes == stream[old(pos)..pos] && |r.bytes| <= max
      ensures r.Got? ==> (r.bytes == "" <==> old(pos) == |stream|)
    {
      if * {
        failed := true;
        return Failed;
      }
      var n := SomeLength(max);
      r := Got(stream[pos..pos + n]);
      pos := pos + n;
      cuts := if n == 0 then cuts else cuts + [pos];
    }
  }

  predicate IsChunked(head: Head) {
    "transfer-encoding" in head.headers
    && exists v :: v in Split(head.headers["transfer-encoding"], ",") && Lower(Trim(v)) == "chunked"
  }

  function ContentLength(head: Head): nat {
    if "content-length" !in head.headers then 0
    else
      match ParseUsize(head.headers["content-length"])
      case None => 0
      case Some(n) => n
  }

  /** The request whose header bytes end at a position of the stream. */
  function RequestAt(stream: string, end: nat): Result<Request, ReadError>
    requires end <= |stream|
  {
    match HeadOfText(stream[..end])
    case None => Err(InvalidHead)
    case Some(head) => RequestWith(stream, end, head)
  }

  /** The request once its head is known. */
  function RequestWith(stream: string, end: nat, head: Head): Result<Request, ReadError>
    requires end <= |stream|
  {
    var length := ContentLength(head);
    if IsChunked(head) then Err(ChunkedBody)
    else if length > BODY_READ_LIMIT then Err(BodyTooLarge)
    else if |stream| < end + length then Err(BodyCutShort)
    else Ok(Request(head, stream[end..end + length]))
  }

  /** Every answer reading this stream can have, however it is cut. Only a blank line that ends
      just past the limit leaves a choice. */
  predicate Outcome(stream: string, r: Result<Request, ReadError>) {
    match FindHeadersEnd(stream)
    case None => r == Err(if |stream| < 65536 then HeadersCutShort else HeadersTooLarge)
    case Some(end) =>
      if end <= 65536 then r == RequestAt(stream, end)
      else if end > 69631 then r == Err(HeadersTooLarge)
      else r == RequestAt(stream, end) || r == Err(HeadersTooLarge)
  }

  function Last(cuts: seq<nat>): nat
    requires cuts != []
  {
    cuts[|cuts| - 1]
  }

  /** Where the reads of a connection can have ended, with the start in front. */
  predicate Reads(stream: string, cuts: seq<nat>) {
    if |cuts| <= 1 then cuts == [0]
    else Reads(stream, cuts[..|cuts| - 1]) && Last(cuts[..|cuts| - 1]) < Last(cuts) <= |stream|
  }

  /** No read was longer than a chunk of the header phase. */
  predicate Chunked(cuts: seq<nat>) {
    |cuts| <= 1 || (Chunked(cuts[..|cuts| - 1]) && Last(cuts) <= Last(cuts[..|cuts| - 1]) + HEADER_CHUNK)
  }

  /** Where the reads of a header phase can end. */
  predicate Cuts(stream: string, cuts: seq<nat>) {
    Reads(stream, cuts) && Chunked(cuts)
  }

  lemma OneMore(stream: string, before: seq<nat>, length: nat)
    requires Reads(stream, before)
    ensures before != [] && (before + [length])[..|before|] == before && Last(before) <= |stream|
    ensures Reads(stream, before + [length]) <==> Last(before) < length <= |stream|
    ensures Chunked(before + [length]) <==> Chunked(before) && length <= Last(before) + HEADER_CHUNK
  {
    assert (before + [length])[..|before|] == before;
  }

  lemma {:induction false} ReadsAscend(stream: string, cuts: seq<nat>)
    requires Reads(stream, cuts)
    ensures Last(cuts) <= |stream| && forall i :: 0 <= i < |cuts| - 1 ==> cuts[i] < Last(cuts)
  {
    if |cuts| == 1 {
    } else {
      ReadsAscend(stream, cuts[..|cuts| - 1]);
    }
  }

  /** No cut falls between the limit and the end of the headers. */
  predicate NeverOver(cuts: seq<nat>, end: nat) {
    forall i :: 0 <= i < |cuts| && cuts[i] < end ==> cuts[i] < 65536
  }

  /** A blank line of the longer buffer that was not in the shorter one starts at most three
      bytes before the shorter one's end. */
  lemma BackScan(shorter: string, longer: string, start: nat)
    requires shorter <= longer && FindHeadersEnd(shorter) == None
    requires start == (if |shorter| < 3 then 0 else |shorter| - 3)
    ensures Find(longer, BLANK, start) == Find(longer, BLANK, 0)
  {
    forall j | 0 <= j < start ensures !At(longer, j, BLANK) {
      AtSlice(longer, 0, |shorter|, j, BLANK);
      assert !At(shorter, j, BLANK);
    }
    if Find(longer, BLANK, start).Some? {
      FindIs(longer, BLANK, Find(longer, BLANK, start).value);
    }
  }

  function SearchStart(length: nat): nat {
    if length < 3 then 0 else length - 3
  }

  /** How far a header phase is after some reads: not at its end, at its end with the last of them,
      or at its end before the last of them. */
  datatype Progress = Ongoing | Ended(outcome: Result<nat, ReadError>) | Exceeded(outcome: Result<nat, ReadError>)

  /** What one read does: it completes the first blank line, or reaches the limit, or neither. */
  function AfterRead(stream: string, start: nat, length: nat): Progress
    requires start <= length <= |stream|
  {
    match Find(stream[..length], BLANK, SearchStart(start))
    case Some(idx) => Ended(Ok(idx + 4))
    case None => if length >= HEADER_READ_LIMIT then Ended(Err(HeadersTooLarge)) else Ongoing
  }

  /** The header phase replayed for given reads. */
  function Replayed(stream: string, cuts: seq<nat>): Progress
    requires Reads(stream, cuts)
  {
    if |cuts| == 1 then Ongoing
    else
      var before := cuts[..|cuts| - 1];
      match Replayed(stream, before)
      case Ongoing => AfterRead(stream, Last(before), Last(cuts))
      case Ended(r) => Exceeded(r)
      case Exceeded(r) => Exceeded(r)
  }

  /** The outcome of the header phase, the end of the stream included; None while there is none. */
  function HeaderPhase(stream: string, cuts: seq<nat>): Option<Result<nat, ReadError>>
    requires Reads(stream, cuts)
  {
    var progress := Replayed(stream, cuts);
    if !progress.Ongoing? then Some(progress.outcome)
    else if Last(cuts) == |stream| then Some(Err(HeadersCutShort))
    else None
  }

  /** What a request is answered for given reads, no read failing. */
  function RequestFor(stream: string, cuts: seq<nat>): Option<Result<Request, ReadError>>
    requires Reads(stream, cuts)
  {
    match HeaderPhase(stream, cuts)
    case None => None
    case Some(Err(error)) => Some(Err(error))
    case Some(Ok(end)) => if end <= |stream| then Some(RequestAt(stream, end)) else None
  }

  /** How the replay ends, said without replaying: it finds the first blank line of the stream if
      the reads got to it and none ended from the limit on before it; it stops at the limit if one did. */
  predicate ReplayMeaning(stream: string, cuts: seq<nat>, progress: Progress)
    requires Reads(stream, cuts)
  {
    var found, length := FindHeadersEnd(stream), Last(cuts);
    if progress.Ongoing? then length < HEADER_READ_LIMIT && (found.Some? ==> length < found.value)
    else
      match progress.outcome
      case Ok(end) => found == Some(end) && end <= length && NeverOver(cuts, end)
      case Err(error) =>
        error == HeadersTooLarge && length >= HEADER_READ_LIMIT && (found.Some? ==> !NeverOver(cuts, found.value))
  }

  /** What one read does, said on the whole stream: the search from three bytes before its start
      sees the first blank line as soon as it is complete. */
  lemma AfterReadMeaning(stream: string, start: nat, length: nat)
    requires start <= length <= |stream|
    requires FindHeadersEnd(stream).Some? ==> start < FindHeadersEnd(stream).value
    ensures var found := FindHeadersEnd(stream);
            AfterRead(stream, start, length) ==
            if found.Some? && found.value <= length then Ended(Ok(found.value))
            else if length >= HEADER_READ_LIMIT then Ended(Err(HeadersTooLarge))
            else Ongoing
  {
    HeadersEndOfPrefix(stream, start);
    HeadersEndOfPrefix(stream, length);
    BackScan(stream[..start], stream[..length], SearchStart(start));
  }

  lemma ReadMeaning(stream: string, before: seq<nat>, length: nat)
    requires Reads(stream, before) && Last(before) < length <= |stream|
    requires ReplayMeaning(stream, before, Ongoing)
    ensures Reads(stream, before + [length])
    ensures ReplayMeaning(stream, before + [length], AfterRead(stream, Last(before), length))
  {
    OneMore(stream, before, length);
    ReadsAscend(stream, before);
    AfterReadMeaning(stream, Last(before), length);
    assert (before + [length])[|before|] == length;
  }

  /** A read after the end of the phase is no part of it. */
  lemma MeaningKept(stream: string, before: seq<nat>, length: nat)
    requires Reads(stream, before) && Last(before) < length <= |stream|
    requires !Replayed(stream, before).Ongoing? && ReplayMeaning(stream, before, Replayed(stream, before))
    ensures Reads(stream, before + [length])
    ensures ReplayMeaning(stream, before + [length], Exceeded(Replayed(stream, before).outcome))
  {
    var cuts := before + [length];
    OneMore(stream, before, length);
    assert forall i :: 0 <= i < |before| ==> cuts[i] == before[i];
    assert cuts[|before|] == length;
  }

  lemma {:induction false} ReplayedMeaning(stream: string, cuts: seq<nat>)
    requires Reads(stream, cuts)
    ensures ReplayMeaning(stream, cuts, Replayed(stream, cuts))
  {
    if |cuts| == 1 {
    } else {
      var before, length := cuts[..|cuts| - 1], Last(cuts);
      assert cuts == before + [length];
      ReplayedMeaning(stream, before);
      if Replayed(stream, before).Ongoing? {
        ReadMeaning(stream, before, length);
      } else {
        MeaningKept(stream, before, length);
      }
    }
  }

  /** One more read of a header phase that has not ended. */
  lemma ReplayedRead(stream: string, before: seq<nat>, length: nat)
    requires Cuts(stream, before) && Replayed(stream, before).Ongoing?
    requires Last(before) < length <= Last(before) + HEADER_CHUNK && length <= |stream|
    ensures Cuts(stream, before + [length])
    ensures Replayed(stream, before + [length]) == AfterRead(stream, Last(before), length)
  {
    OneMore(stream, before, length);
  }

  /** The outcome of the header phase, exactly, for all reads: it accepts the first blank line
      exactly when the reads reach it and none ended at the limit or beyond before it; it says too
      large exactly when one ended there, or when there is no blank line and the limit is reached;
      it says cut short exactly when the stream ends below the limit without one. */
  lemma HeaderPhaseExact(stream: string, cuts: seq<nat>)
    requires Reads(stream, cuts)
    ensures var phase, found, length := HeaderPhase(stream, cuts), FindHeadersEnd(stream), Last(cuts);
            && (forall end :: phase == Some(Ok(end)) <==> found == Some(end) && end <= length && NeverOver(cuts, end))
            && (phase == Some(Err(HeadersTooLarge)) <==>
                  length >= 65536 && (found.Some? ==> !NeverOver(cuts, found.value)))
            && (phase == Some(Err(HeadersCutShort)) <==>
                  found == None && length == |stream| < 65536)
            && (phase == None <==>
                  length < 65536 && length < |stream| && (found.Some? ==> length < found.value))
  {
    ReplayedMeaning(stream, cuts);
  }

  lemma {:induction false} OutcomeKept(stream: string, cuts: seq<nat>, longer: seq<nat>)
    requires Reads(stream, cuts) && Reads(stream, longer) && cuts <= longer && !Replayed(stream, cuts).Ongoing?
    ensures !Replayed(stream, longer).Ongoing? && Replayed(stream, longer).outcome == Replayed(stream, cuts).outcome
  {
    if |longer| == |cuts| {
      assert longer == cuts;
    } else {
      OutcomeKept(stream, cuts, longer[..|longer| - 1]);
    }
  }

  lemma SliceGrows(s: string, i: nat, j: nat)
    requires i <= j <= |s|
    ensures s[..i] + s[i..j] == s[..j]
  {
  }

  /** The header phase: it ends as its own reads determine, and makes no read after its end. */
  method ReadHeaders(c: Connection) returns (buffer: string, end: Result<nat, ReadError>)
    requires c.Valid() && c.pos == 0 && !c.failed && c.cuts == [0]
    modifies c
    ensures c.Valid() && buffer == c.stream[..c.pos]
    ensures Cuts(c.stream, c.cuts)
    ensures Replayed(c.stream, c.cuts) == if end.Ok? || end == Err(HeadersTooLarge) then Ended(end) else Ongoing
    ensures c.failed <==> end == Err(IoFailure)
    ensures !c.failed ==> HeaderPhase(c.stream, c.cuts) == Some(end)
  {
    buffer := "";
    while true
      invariant c.Valid() && buffer == c.stream[..c.pos] && !c.failed
      invariant Cuts(c.stream, c.cuts)
      invariant Replayed(c.stream, c.cuts) == if c.pos < HEADER_READ_LIMIT then Ongoing else Ended(Err(HeadersTooLarge))
      decreases |c.stream| - c.pos
    {
      if |buffer| >= HEADER_READ_LIMIT {
        end := Err(HeadersTooLarge);
        break;
      }
      var currentLen := |buffer|;
      ghost var before := c.cuts;
      var read := c.Read(HEADER_CHUNK);
      if read.Failed? {
        end := Err(IoFailure);
        break;
      }
      if read.bytes == "" {
        end := Err(HeadersCutShort);
        break;
      }
      buffer := buffer + read.bytes;
      SliceGrows(c.stream, currentLen, c.pos);
      ReplayedRead(c.stream, before, c.pos);
      var searchStart := if currentLen < 3 then 0 else currentLen - 3;
      var idx := Find(buffer, BLANK, searchStart);
      if idx.Some? {
        end := Ok(idx.value + 4);
        break;
      }
    }
  }

  /** The body phase: it asks for no byte past the expected length. */
  method ReadBody(c: Connection, start: string, expected: nat) returns (buffer: string, error: Option<ReadError>)
    requires c.Valid() && start == c.stream[..c.pos] && !c.failed
    modifies c
    ensures c.Valid() && buffer == c.stream[..c.pos] && old(c.cuts) <= c.cuts
    ensures old(c.pos) <= c.pos <= (if old(c.pos) < expected then expected else old(c.pos))
    ensures error == None ==> expected <= c.pos
    ensures error == Some(IoFailure) <==> c.failed
    ensures error.Some? && !c.failed ==> error == Some(BodyCutShort) && |c.stream| < expected
  {
    buffer := start;
    while |buffer| < expected
      invariant c.Valid() && buffer == c.stream[..c.pos] && old(c.cuts) <= c.cuts
      invariant old(c.pos) <= c.pos <= (if old(c.pos) < expected then expected else old(c.pos)) && !c.failed
      decreases |c.stream| - c.pos
    {
      var toRead := if expected - |buffer| < BODY_CHUNK then expected - |buffer| else BODY_CHUNK;
      var read := c.Read(toRead);
      if read.Failed? {
        return buffer, Some(IoFailure);
      }
      if read.bytes == "" {
        return buffer, Some(BodyCutShort);
      }
      buffer := buffer + read.bytes;
      assert buffer == c.stream[..c.pos];
    }
    error := None;
  }

  /** The checks on the head, then the body. */
  method ReadWith(c: Connection, buffer: string, headersEnd: nat, head: Head) returns (r: Result<Request, ReadError>)
    requires c.Valid() && buffer == c.stream[..c.pos] && headersEnd <= c.pos && !c.failed
    modifies c
    ensures c.Valid() && old(c.cuts) <= c.cuts
    ensures r == if c.failed then Err(IoFailure) else RequestWith(c.stream, headersEnd, head)
    ensures r.Ok? ==> c.pos == (if old(c.pos) < headersEnd + |r.value.body| then headersEnd + |r.value.body| else old(c.pos))
  {
    if IsChunked(head) {
      return Err(ChunkedBody);
    }
    var contentLength := ContentLength(head);
    if contentLength > BODY_READ_LIMIT {
      return Err(BodyTooLarge);
    }
    var expectedLen := headersEnd + contentLength;
    var entire, error := ReadBody(c, buffer, expectedLen);
    if error.Some? {
      return Err(error.value);
    }
    if |entire| > expectedLen {
      entire := entire[..expectedLen];
    }
    assert entire[headersEnd..] == c.stream[headersEnd..expectedLen];
    r := Ok(Request(head, entire[headersEnd..]));
  }

  lemma HeadAtEnd(stream: string, end: nat)
    requires FindHeadersEnd(stream) == Some(end)
    ensures ParsedHead(stream[..end]) == HeadOfText(stream[..end])
  {
    HeadersEndOfPrefix(stream, end);
    assert stream[..end][..end] == stream[..end];
  }

  /** Every answer that reads can lead to is one the stream allows. */
  lemma RequestOutcome(stream: string, cuts: seq<nat>)
    requires Cuts(stream, cuts)
    ensures RequestFor(stream, cuts).Some? ==> Outcome(stream, RequestFor(stream, cuts).value)
  {
    HeaderPhaseExact(stream, cuts);
    var phase := HeaderPhase(stream, cuts);
    if phase.Some? && phase.value.Ok? {
      AcceptedBelow(stream, cuts, phase.value.value);
    }
  }

  /** The end of accepted headers is at most one read past the last length below the limit. */
  lemma {:induction false} AcceptedBelow(stream: string, cuts: seq<nat>, end: nat)
    requires Cuts(stream, cuts) && 0 < end <= Last(cuts) && NeverOver(cuts, end)
    ensures end <= HEADER_READ_LIMIT - 1 + HEADER_CHUNK
  {
    var before := cuts[..|cuts| - 1];
    if Last(before) < end {
      assert cuts[|cuts| - 2] == Last(before);
    } else {
      AcceptedBelow(stream, before, end);
    }
  }

  lemma AcceptedAt(stream: string, cuts: seq<nat>, end: nat)
    requires Cuts(stream, cuts) && Replayed(stream, cuts) == Ended(Ok(end))
    ensures end <= Last(cuts)
    ensures ParsedHead(stream[..end]) == HeadOfText(stream[..end])
    ensures RequestFor(stream, cuts) == Some(RequestAt(stream, end))
  {
    ReplayedMeaning(stream, cuts);
    HeadAtEnd(stream, end);
  }

  lemma LaterReads(stream: string, cuts: seq<nat>, longer: seq<nat>)
    requires Reads(stream, cuts) && Reads(stream, longer) && cuts <= longer && !Replayed(stream, cuts).Ongoing?
    ensures RequestFor(stream, longer) == RequestFor(stream, cuts)
  {
    OutcomeKept(stream, cuts, longer);
  }

  /** The whole reader: unless a read fails, its answer is the one its reads determine, and so one
      the stream allows. */
  method ReadHttpRequest(c: Connection) returns (r: Result<Request, ReadError>)
    requires c.Valid() && c.pos == 0 && !c.failed && c.cuts == [0]
    modifies c
    ensures c.Valid()
    ensures if c.failed then r == Err(IoFailure) else RequestFor(c.stream, c.cuts) == Some(r) && Outcome(c.stream, r)
  {
    var buffer, end := ReadHeaders(c);
    ghost var cuts := c.cuts;
    RequestOutcome(c.stream, cuts);
    if end.Err? {
      return Err(end.error);
    }
    AcceptedAt(c.stream, cuts, end.value);
    assert buffer[..end.value] == c.stream[..end.value];
    var head := ParseRequestHead(buffer[..end.value]);
    if head == None {
      return Err(InvalidHead);
    }
    r := ReadWith(c, buffer, end.value, head.value);
    LaterReads(c.stream, cuts, c.cuts);
  }

  /** Two runs over one stream give the same answer, unless its headers end just past the limit. */
  lemma ChunkingIndependence(stream: string, cuts: seq<nat>, cuts': seq<nat>)
    requires Cuts(stream, cuts) && Cuts(stream, cuts')
    requires RequestFor(stream, cuts).Some? && RequestFor(stream, cuts').Some?
    ensures RequestFor(stream, cuts) == RequestFor(stream, cuts')
            || (FindHeadersEnd(stream).Some?
                && 65536 < FindHeadersEnd(stream).value <= 69631)
  {
    RequestOutcome(stream, cuts);
    RequestOutcome(stream, cuts');
  }

  /** Reads that end at a given position. */
  lemma {:induction false} SomeCuts(stream: string, length: nat) returns (cuts: seq<nat>)
    requires 0 < length <= |stream|
    ensures Cuts(stream, cuts) && Last(cuts) == length
    ensures forall i :: 0 <= i < |cuts| - 1 ==> cuts[i] <= (if length < HEADER_CHUNK then 0 else length - HEADER_CHUNK)
  {
    if length <= HEADER_CHUNK {
      OneMore(stream, [0], length);
      cuts := [0] + [length];
    } else {
      var before := SomeCuts(stream, length - HEADER_CHUNK);
      OneMore(stream, before, length);
      cuts := before + [length];
    }
  }

  /** For every stream with a blank line: reads that get it refused as too large exist exactly when
      it ends past the limit, and reads that get it accepted exist exactly when it ends at most one
      read past the last length below the limit. Both exist exactly in between. */
  lemma GapDependsOnCuts(stream: string, end: nat)
    requires FindHeadersEnd(stream) == Some(end)
    ensures (exists cuts :: Cuts(stream, cuts) && HeaderPhase(stream, cuts) == Some(Err(HeadersTooLarge)))
            <==> end > 65536
    ensures (exists cuts :: Cuts(stream, cuts) && HeaderPhase(stream, cuts) == Some(Ok(end)))
            <==> end <= 69631
  {
    forall cuts | Cuts(stream, cuts)
      ensures HeaderPhase(stream, cuts) == Some(Err(HeadersTooLarge)) ==> end > HEADER_READ_LIMIT
      ensures HeaderPhase(stream, cuts) == Some(Ok(end)) ==> end <= HEADER_READ_LIMIT - 1 + HEADER_CHUNK
    {
      HeaderPhaseExact(stream, cuts);
      if HeaderPhase(stream, cuts) == Some(Ok(end)) {
        AcceptedBelow(stream, cuts, end);
      }
    }
    if end > HEADER_READ_LIMIT {
      var full := SomeCuts(stream, HEADER_READ_LIMIT);
      assert full[|full| - 1] == HEADER_READ_LIMIT < end && !NeverOver(full, end);
      HeaderPhaseExact(stream, full);
    }
    if end <= HEADER_READ_LIMIT - 1 + HEADER_CHUNK {
      var short := SomeCuts(stream, end);
      assert NeverOver(short, end);
      HeaderPhaseExact(stream, short);
    }
  }

  /** When a peek of at most the limit already shows a head, reading the request cannot fail on
      the headers, and a request read has that very head. */
  lemma PeekAgrees(stream: string, n: nat, r: Result<Request, ReadError>)
    requires n <= |stream| && n <= 65536 && ParsedHead(stream[..n]).Some?
    requires Outcome(stream, r)
    ensures r.Ok? ==> r.value.head == ParsedHead(stream[..n]).value
    ensures r.Err? ==> r.error in {ChunkedBody, BodyTooLarge, BodyCutShort}
  {
    HeadOfPrefix(stream, n);
    HeadAtEnd(stream, FindHeadersEnd(stream).value);
  }

  /** The content length, where there is one that can be read. */
  ghost predicate Declares(head: Head, n: nat) {
    "content-length" in head.headers && Numeral(head.headers["content-length"], n) && n < 0x1_0000_0000_0000_0000
  }

  lemma DeclaredLength(head: Head)
    ensures forall n: nat :: Declares(head, n) ==> ContentLength(head) == n
    ensures (forall n: nat :: !Declares(head, n)) ==> ContentLength(head) == 0
  {
    if "content-length" in head.headers {
      var v := head.headers["content-length"];
      forall n: nat ensures ParseUsize(v) == Some(n) <==> Declares(head, n) {
        ParseUsizeExact(v, n);
      }
    }
  }

  /** The answer for a body of n bytes. */
  function WithBody(stream: string, end: nat, head: Head, n: nat): Result<Request, ReadError>
    requires end <= |stream|
  {
    if n > 33554432 then Err(BodyTooLarge)
    else if |stream| < end + n then Err(BodyCutShort)
    else Ok(Request(head, stream[end..end + n]))
  }

  /** The body of an accepted request that is not chunked, from its head alone: it has the length the
      head declares, up to 32 MiB, and none when the head declares none. */
  lemma BodyExactly(stream: string, cuts: seq<nat>, end: nat, head: Head)
    requires Reads(stream, cuts) && HeaderPhase(stream, cuts) == Some(Ok(end))
    requires end <= |stream| && HeadOfText(stream[..end]) == Some(head) && !IsChunked(head)
    ensures forall n: nat :: Declares(head, n) ==> RequestFor(stream, cuts) == Some(WithBody(stream, end, head, n))
    ensures (forall n: nat :: !Declares(head, n)) ==> RequestFor(stream, cuts) == Some(Ok(Request(head, "")))
  {
    DeclaredLength(head);
    HeadThenBody(stream, cuts, end, head);
    LengthsOfBody(stream, end, head);
  }

  lemma HeadThenBody(stream: string, cuts: seq<nat>, end: nat, head: Head)
    requires Reads(stream, cuts) && HeaderPhase(stream, cuts) == Some(Ok(end))
    requires end <= |stream| && HeadOfText(stream[..end]) == Some(head)
    ensures RequestFor(stream, cuts) == Some(RequestWith(stream, end, head))
  {
  }

  lemma LengthsOfBody(stream: string, end: nat, head: Head)
    requires end <= |stream| && !IsChunked(head)
    ensures RequestWith(stream, end, head) == WithBody(stream, end, head, ContentLength(head))
    ensures ContentLength(head) == 0 ==> RequestWith(stream, end, head) == Ok(Request(head, ""))
  {
    assert stream[end..end] == "";
  }

  /** A request is refused for its body's length exactly when it is not chunked and declares more than
      32 MiB, and for being chunked exactly when it is. */
  lemma BodyRefusedExactly(stream: string, cuts: seq<nat>, end: nat, head: Head)
    requires Reads(stream, cuts) && HeaderPhase(stream, cuts) == Some(Ok(end))
    requires end <= |stream| && HeadOfText(stream[..end]) == Some(head)
    ensures RequestFor(stream, cuts) == Some(Err(ChunkedBody)) <==> IsChunked(head)
    ensures RequestFor(stream, cuts) == Some(Err(BodyTooLarge))
            <==> !IsChunked(head) && exists n: nat :: Declares(head, n) && n > 33554432
  {
    DeclaredLength(head);
    HeadThenBody(stream, cuts, end, head);
  }
}
