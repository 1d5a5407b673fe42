/** A connection from its first bytes on: one peek decides whether it is refused, upgraded to a
    WebSocket, or read as a request. */
module Connections {
  import opened Basics
  import opened Text
  import opened RequestHead
  import opened RequestReader

  /** Refused is the answer with status 400; a dropped connection gets no answer. */
  datatype Handling = Refused | Upgraded(path: string) | Served(request: Request) | Dropped(error: ReadError)

  predicate IsUpgrade(head: Head) {
    && "upgrade" in head.headers && "connection" in head.headers
    && Lower(head.headers["upgrade"]) == "websocket"
    && exists part :: part in Split(head.headers["connection"], ",") && Lower(Trim(part)) == "upgrade"
  }

  function HandlingOf(r: Result<Request, ReadError>): Handling {
    match r
    case Ok(request) => Served(request)
    case Err(error) => Dropped(error)
  }

  /** What becomes of a connection of which the first n bytes were peeked, for given reads; None
      while they have not led to an end. routes are the WebSocket paths. */
  function Handled(stream: string, n: nat, cuts: seq<nat>, routes: set<string>): Option<Handling>
    requires n <= |stream| && Reads(stream, cuts)
  {
    match ParsedHead(stream[..n])
    case None => Some(Refused)
    case Some(head) =>
      if IsUpgrade(head) && head.path in routes then Some(Upgraded(head.path))
      else
        match RequestFor(stream, cuts)
        case None => None
        case Some(r) => Some(HandlingOf(r))
  }

  /** The connection: peek, then upgrade or read. */
  method HandleConnection(c: Connection, routes: set<string>) returns (h: Handling, ghost peeked: nat)
    requires c.Valid() && c.pos == 0 && !c.failed && c.cuts == [0]
    modifies c
    ensures c.Valid() && peeked <= |c.stream| && peeked <= 65536
    ensures if c.failed then h == Dropped(IoFailure) else Handled(c.stream, peeked, c.cuts, routes) == Some(h)
    ensures h.Refused? || h.Upgraded? ==> c.pos == 0
  {
    peeked := 0;
    var peek := c.Peek(HEADER_READ_LIMIT);
    if peek.Failed? {
      return Dropped(IoFailure), 0;
    }
    peeked := |peek.bytes|;
    assert peek.bytes == c.stream[..peeked];
    var head := ParseRequestHead(peek.bytes);
    if head == None {
      return Refused, peeked;
    }
    if IsUpgrade(head.value) && head.value.path in routes {
      return Upgraded(head.value.path), peeked;
    }
    var r := ReadHttpRequest(c);
    match r
    case Ok(request) => h := Served(request);
    case Err(error) => h := Dropped(error);
  }

  /** The stream begins with a head that the limit leaves room for, ending at the given position. */
  predicate HeadWithin(stream: string, end: nat) {
    FindHeadersEnd(stream) == Some(end) && end <= 65536 && HeadOfText(stream[..end]).Some?
  }

  /** What the stream and the peek alone say about the outcome. */
  function Expected(stream: string, n: nat, routes: set<string>): Handling
    requires n <= |stream|
  {
    match FindHeadersEnd(stream)
    case None => Refused
    case Some(end) =>
      if n < end then Refused
      else
        match HeadOfText(stream[..end])
        case None => Refused
        case Some(head) =>
          if IsUpgrade(head) && head.path in routes then Upgraded(head.path) else HandlingOf(RequestAt(stream, end))
  }

  lemma PeekShows(stream: string, n: nat)
    requires n <= |stream|
    ensures ParsedHead(stream[..n])
         == match FindHeadersEnd(stream)
            case None => None
            case Some(end) => if n < end then None else HeadOfText(stream[..end])
  {
    HeadersEndOfPrefix(stream, n);
    var found := FindHeadersEnd(stream);
    if found.Some? && found.value <= n {
      assert stream[..n][..found.value] == stream[..found.value];
    }
  }

  /** Behind the peek no cut matters: where the blank line ends within the limit, all reads lead to
      the same request. */
  lemma ReadsAgreeBelow(stream: string, cuts: seq<nat>, end: nat)
    requires Reads(stream, cuts) && FindHeadersEnd(stream) == Some(end) && end <= HEADER_READ_LIMIT
    ensures RequestFor(stream, cuts) == if end <= Last(cuts) then Some(RequestAt(stream, end)) else None
  {
    ReadsAscend(stream, cuts);
    HeaderPhaseExact(stream, cuts);
    assert NeverOver(cuts, end);
  }

  /** The outcome of a connection, exactly: it is refused exactly when the peek ends before the blank
      line or the head before it does not parse; otherwise the stream alone decides, and no cut of
      the reads that follow makes a difference. */
  lemma ConnectionExact(stream: string, n: nat, cuts: seq<nat>, routes: set<string>)
    requires n <= |stream| && n <= 65536 && Reads(stream, cuts)
    ensures Handled(stream, n, cuts, routes) == Some(Refused)
            <==> !exists end: nat :: HeadWithin(stream, end) && end <= n
    ensures Handled(stream, n, cuts, routes).Some? ==> Handled(stream, n, cuts, routes) == Some(Expected(stream, n, routes))
    ensures Handled(stream, n, cuts, routes) == None ==> Last(cuts) < n
  {
    PeekShows(stream, n);
    var found := FindHeadersEnd(stream);
    if found.Some? && found.value <= n {
      ReadsAgreeBelow(stream, cuts, found.value);
      assert HeadWithin(stream, found.value) <==> HeadOfText(stream[..found.value]).Some?;
    }
  }

  /** Whether the bytes of a head come together decides whether it is served: every stream with
      bytes in it can be refused, whatever it holds, when the peek sees only its first byte; and
      some peek lets it in exactly when its head fits the limit and parses. */
  lemma PeekDecides(stream: string, routes: set<string>)
    requires stream != ""
    ensures Expected(stream, 1, routes) == Refused
    ensures (exists n :: 0 < n <= |stream| && n <= 65536 && Expected(stream, n, routes) != Refused)
            <==> exists end :: HeadWithin(stream, end)
  {
    var found := FindHeadersEnd(stream);
    if end :| HeadWithin(stream, end) {
      assert Expected(stream, end, routes) != Refused;
    }
    forall n | 0 < n <= |stream| && n <= HEADER_READ_LIMIT && Expected(stream, n, routes) != Refused
      ensures HeadWithin(stream, found.value)
    {
    }
  }
}
