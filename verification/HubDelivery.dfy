/** What broadcasting does: which channel a frame goes to, and that its clients get it. */
module HubDelivery {
  import opened Basics
  import opened Envelope
  import opened WebSocketHub

  // ----- routes and channels

  /** No two routes share a channel, and every stream feeds the channel of an Axis route or of none. */
  predicate Separate(h: Hub) {
    && (forall p, q :: p in h.ws && q in h.ws && p != q ==> h.ws[p] != h.ws[q])
    && (forall p, q :: p in h.axis && q in h.axis && p != q ==> h.axis[p] != h.axis[q])
    && (forall p, q :: p in h.ws && q in h.axis ==> h.ws[p] != h.axis[q])
    && (forall p :: p in h.axis ==> h.axis[p] in h.streams)
    && (forall p :: p in h.ws ==> h.ws[p] !in h.streams)
  }

  lemma NextSeparate(h: Hub, step: Step)
    requires Inv(h) && Separate(h)
    ensures Separate(Next(h, step))
  {
    match step
    case RegisterWebSocket(path) => RegisterSeparate(h, path);
    case RegisterAxis(path, fpsValid) => AxisSeparate(h, path, fpsValid);
    case Stop =>
    case _ => RoutesKept(h, step);
  }

  lemma RegisterSeparate(h: Hub, path: string)
    requires Inv(h) && Separate(h)
    ensures Separate(Next(h, RegisterWebSocket(path)))
  {
  }

  lemma AxisSeparate(h: Hub, path: string, fpsValid: bool)
    requires Inv(h) && Separate(h)
    ensures Separate(Next(h, RegisterAxis(path, fpsValid)))
  {
  }

  lemma RoutesKept(h: Hub, step: Step)
    requires !step.RegisterWebSocket? && !step.RegisterAxis? && !step.Stop?
    ensures Next(h, step).ws == h.ws && Next(h, step).axis == h.axis && Next(h, step).streams == h.streams
  {
  }

  /** In every run every route has a channel of its own. */
  lemma {:induction false} RunSeparate(steps: seq<Step>)
    ensures Separate(Run(steps))
  {
    if steps == [] {
    } else {
      RunSeparate(steps[..|steps| - 1]);
      RunInv(steps[..|steps| - 1]);
      NextSeparate(Run(steps[..|steps| - 1]), steps[|steps| - 1]);
    }
  }

  predicate RoutePath(path: string) {
    path != "" && path[0] == '/' && forall i :: 0 <= i < |path| ==> path[i] != '*'
  }

  /** Registering a valid path gives it a new channel, empty and without clients; an invalid one
      changes nothing. */
  lemma RegisteredApart(steps: seq<Step>, path: string, axis: bool, fpsValid: bool)
    requires axis || fpsValid
    ensures var h := Run(steps);
            var t := Next(h, if axis then RegisterAxis(path, fpsValid) else RegisterWebSocket(path));
            if RoutePath(path) && fpsValid then
              && (if axis then path in t.axis && t.axis[path] == |h.channels| && t.ws == h.ws
                  else path in t.ws && t.ws[path] == |h.channels| && t.axis == h.axis)
              && |t.channels| == |h.channels| + 1 && t.channels[|h.channels|].Version() == 0
              && (forall c :: 0 <= c < |h.channels| ==> t.channels[c] == h.channels[c])
              && t.clients == h.clients && forall i :: 0 <= i < |t.clients| ==> t.clients[i].channel != |h.channels|
            else t == h
  {
    RunInv(steps);
    assert '*' in path <==> exists i :: 0 <= i < |path| && path[i] == '*';
  }

  /** A connection gets the plain route of its path, else the Axis route, else none; after a stop
      there is none for any path. */
  lemma ConnectedTo(steps: seq<Step>, path: string)
    ensures var h := Run(steps);
            var t := Next(h, Connect(path));
            if path in h.ws || path in h.axis then
              |t.clients| == |h.clients| + 1 && t.clients[..|h.clients|] == h.clients
              && t.clients[|h.clients|].channel == (if path in h.ws then h.ws[path] else h.axis[path])
              && t.clients[|h.clients|].phase.Connected? && t.channels == h.channels
            else t == h
    ensures var s := Next(Run(steps), Stop);
            s.channels == Run(steps).channels && s.clients == Run(steps).clients && Next(s, Connect(path)) == s
  {
  }

  // ----- publishing

  /** What a broadcast is answered: the path's form first, then the frame, then the route. */
  lemma BroadcastStatusExact(h: Hub, path: string, frame: Frame)
    ensures StatusOf(h, path, frame) == InvalidFrame <==> path != "" && path[0] == '/' && !Validate(frame)
    ensures StatusOf(h, path, frame) == BroadcastStatus.Sent
            <==> path != "" && path[0] == '/' && Validate(frame) && path in h.ws
  {
  }

  /** The frame is the new current value of this channel, as its next version, and nothing else changes. */
  predicate Published(h: Hub, t: Hub, c: nat, frame: Frame) {
    && c < |h.channels| == |t.channels|
    && t.channels[c].Version() == h.channels[c].Version() + 1 && t.channels[c].current == frame
    && (forall v :: 0 <= v <= h.channels[c].Version() ==> t.channels[c].At(v) == h.channels[c].At(v))
    && (forall d :: 0 <= d < |h.channels| && d != c ==> t.channels[d] == h.channels[d])
    && t.clients == h.clients && t.ws == h.ws && t.axis == h.axis && t.streams == h.streams
  }

  /** In every run: a valid frame broadcast on a path is published to the channel of that path if some
      client receives from it, and to none otherwise; a broadcast that is not accepted changes nothing. */
  lemma BroadcastPublishes(steps: seq<Step>, path: string, frame: Frame)
    ensures var h := Run(steps);
            var t := Next(h, Broadcast(path, frame));
            if path == "" || path[0] != '/' || !Validate(frame) || path !in h.ws then t == h
            else if exists i :: 0 <= i < |h.clients| && h.clients[i].channel == h.ws[path] && h.clients[i].Receiving()
            then Published(h, t, h.ws[path], frame)
            else t == h
  {
    RunInv(steps);
  }

  /** The same for a stream and its own channel: the frame is valid, of type 1 without flags, and holds
      the payload. */
  lemma StreamPublishes(steps: seq<Step>, stream: nat, payload: seq<Octet>, timestamp: nat)
    requires |payload| < PAYLOAD_LIMIT && timestamp < Power256(8)
    ensures var h := Run(steps);
            var t := Next(h, AxisFrame(stream, payload, timestamp));
            if stream in h.streams && payload != []
               && exists i :: 0 <= i < |h.clients| && h.clients[i].channel == stream && h.clients[i].Receiving()
            then
              stream < |t.channels|
              && var frame := t.channels[stream].current;
                 && Published(h, t, stream, frame) && Validate(frame) && frame[HEADER_LEN..] == payload
                 && Parse(frame) == Some(Header(1, 1, 0, timestamp, |payload|))
            else t == h
  {
    var h := Run(steps);
    RunInv(steps);
    Widths();
    ParseEncode(1, 0, timestamp, payload);
    if i: nat :| i < |h.clients| && h.clients[i].channel == stream && h.clients[i].Receiving() {
      if stream in h.streams && payload != [] {
        StreamAt(h, stream, payload, timestamp, i);
      }
    }
  }

  // ----- delivery

  /** The client's own steps, undisturbed. */
  function Turn(h: Hub, i: nat): Hub {
    Next(Next(Next(Next(h, Write(i, true)), Changed(i)), Borrow(i)), Write(i, true))
  }

  /** A client whose write fails, or that goes away, is written to no more and holds no receiver. */
  lemma ClientEnds(h: Hub, i: nat)
    requires Inv(h) && i < |h.clients|
    ensures var c, d := h.clients[i], Next(h, Disconnect(i)).clients[i];
            d.phase.Closed? && !d.Receiving() && d.written == c.written && d.channel == c.channel
    ensures var c, d := h.clients[i], Next(h, Write(i, false)).clients[i];
            if c.phase.Holding? then d.phase.Closed? && !d.Receiving() && d.written == c.written else d == c
    ensures h.clients[i].phase.Closed? ==> forall step :: Next(h, step).clients[i] == h.clients[i]
  {
  }

  /** A receiving client with something unseen, or on its way to writing, has written the current
      version and frame at the end of one turn. */
  lemma TurnDelivers(ch: Channel, c: Client, i: nat)
    requires ClientInv(ch, c) && c.Receiving() && c.seen < ch.Version()
    ensures var d := ClientStep(ch, ClientStep(ch, ClientStep(ch, ClientStep(ch, c, Write(i, true)), Changed(i)), Borrow(i)), Write(i, true));
            && d.phase.Waiting? && |d.written| > |c.written| && d.written[..|c.written|] == c.written
            && d.written[|d.written| - 1].version == ch.Version() && d.written[|d.written| - 1].frame == ch.current
  {
    assert ch.At(ch.Version()) == ch.current && ch.Version() > 0;
  }

  /** The last message client i has been sent since, and it is this frame as this version. */
  predicate SentLast(h: Hub, t: Hub, i: nat, frame: Frame, version: nat) {
    && i < |h.clients| && i < |t.clients| && |t.clients[i].written| > |h.clients[i].written|
    && t.clients[i].written[|t.clients[i].written| - 1].frame == frame
    && t.clients[i].written[|t.clients[i].written| - 1].version == version
  }

  lemma PublishedDelivered(h: Hub, t: Hub, c: nat, frame: Frame, i: nat)
    requires Inv(h) && Inv(t) && Published(h, t, c, frame)
    requires i < |h.clients| && h.clients[i].Receiving() && h.clients[i].channel == c
    ensures SentLast(h, Turn(t, i), i, frame, h.channels[c].Version() + 1)
  {
    assert ClientInv(h.channels[c], h.clients[i]) && ClientInv(t.channels[c], t.clients[i]);
    TurnDelivers(t.channels[c], t.clients[i], i);
  }

  lemma BroadcastAt(h: Hub, path: string, frame: Frame, i: nat)
    requires Inv(h) && i < |h.clients| && h.clients[i].Receiving()
    requires StatusOf(h, path, frame) == BroadcastStatus.Sent && h.clients[i].channel == h.ws[path]
    ensures Inv(Next(h, Broadcast(path, frame))) && Published(h, Next(h, Broadcast(path, frame)), h.ws[path], frame)
  {
    NextInv(h, Broadcast(path, frame));
    assert HasReceiver(h, h.ws[path]);
  }

  lemma StreamAt(h: Hub, stream: nat, payload: seq<Octet>, timestamp: nat, i: nat)
    requires Inv(h) && i < |h.clients| && h.clients[i].Receiving() && payload != []
    requires stream in h.streams && h.clients[i].channel == stream
    ensures var t := Next(h, AxisFrame(stream, payload, timestamp));
            Inv(t) && Published(h, t, stream, Encode(1, 0, timestamp, payload))
  {
    NextInv(h, AxisFrame(stream, payload, timestamp));
    assert HasReceiver(h, stream);
  }

  /** So in every run a client that receives from the channel of a path is sent the frame broadcast on
      that path, by its next undisturbed turn. */
  lemma BroadcastDelivered(steps: seq<Step>, path: string, frame: Frame, i: nat)
    requires i < |Run(steps).clients| && Run(steps).clients[i].Receiving()
    requires StatusOf(Run(steps), path, frame) == BroadcastStatus.Sent
    requires Run(steps).clients[i].channel == Run(steps).ws[path]
    ensures var h := Run(steps);
            h.ws[path] < |h.channels|
            && SentLast(h, Turn(Next(h, Broadcast(path, frame)), i), i, frame, h.channels[h.ws[path]].Version() + 1)
  {
    var h := Run(steps);
    var t := Next(h, Broadcast(path, frame));
    RunInv(steps);
    BroadcastAt(h, path, frame, i);
    PublishedDelivered(h, t, h.ws[path], frame, i);
  }

  lemma StreamFrame(payload: seq<Octet>, timestamp: nat)
    requires |payload| < PAYLOAD_LIMIT && timestamp < Power256(8)
    ensures Validate(Encode(1, 0, timestamp, payload)) && Encode(1, 0, timestamp, payload)[HEADER_LEN..] == payload
  {
    Widths();
    ParseEncode(1, 0, timestamp, payload);
  }

  /** And from a stream's own frame. */
  lemma StreamDelivered(steps: seq<Step>, stream: nat, payload: seq<Octet>, timestamp: nat, i: nat)
    requires |payload| < PAYLOAD_LIMIT && timestamp < Power256(8) && payload != []
    requires i < |Run(steps).clients| && Run(steps).clients[i].Receiving()
    requires stream in Run(steps).streams && Run(steps).clients[i].channel == stream
    ensures var h := Run(steps);
            var frame := Encode(1, 0, timestamp, payload);
            && Validate(frame) && frame[HEADER_LEN..] == payload && stream < |h.channels|
            && SentLast(h, Turn(Next(h, AxisFrame(stream, payload, timestamp)), i), i, frame, h.channels[stream].Version() + 1)
  {
    var h := Run(steps);
    var t := Next(h, AxisFrame(stream, payload, timestamp));
    RunInv(steps);
    StreamAt(h, stream, payload, timestamp, i);
    StreamFrame(payload, timestamp);
    PublishedDelivered(h, t, stream, Encode(1, 0, timestamp, payload), i);
  }
}
