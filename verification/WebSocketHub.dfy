/** Broadcasting frames to WebSocket clients through watch channels. Publishers run on other threads,
    so the system is a machine whose steps interleave in any way.

    What is assumed of a watch channel: it keeps one value and counts its versions; sending with no
    receiver changes nothing; subscribing marks the current version seen; waiting for a change ends
    when the current version is unseen and marks it seen; borrowing reads the current value, which
    may be newer by then, and marks nothing. */
module WebSocketHub {
  import opened Basics
  import opened Envelope
  import RoutePatterns

  type Frame = seq<Octet>

  /** A channel: its current value and all the earlier ones; the version of the current value is
      the number of earlier ones. */
  datatype Channel = Channel(past: seq<Frame>, current: Frame) {
    function Version(): nat { |past| }

    function At(v: nat): Frame
      requires v <= Version()
    {
      if v < |past| then past[v] else current
    }

    function Sent(frame: Frame): Channel {
      Channel(past + [current], frame)
    }

    /** It starts with an empty value and never goes back to one. */
    predicate Valid() {
      forall v :: 0 <= v <= Version() ==> (At(v) == [] <==> v == 0)
    }
  }

  const NEW_CHANNEL := Channel([], [])

  /** A message written to a client: its version, what was seen when it was borrowed, its bytes. */
  datatype Message = Message(version: nat, seen: nat, frame: Frame)

  datatype Phase =
    | Connected
    | Waiting
    | Woken
    | Holding(version: nat, frame: Frame)
    | Closed

  datatype Client = Client(channel: nat, phase: Phase, subscribed: nat, seen: nat, written: seq<Message>) {
    predicate Receiving() { phase.Waiting? || phase.Woken? || phase.Holding? }
  }

  datatype Hub = Hub(channels: seq<Channel>, ws: map<string, nat>, axis: map<string, nat>, streams: set<nat>,
                     clients: seq<Client>)

  datatype Step =
    | RegisterWebSocket(path: string)
    | RegisterAxis(path: string, fpsValid: bool)
    | Broadcast(path: string, frame: Frame)
    | AxisFrame(stream: nat, payload: seq<Octet>, timestamp: nat)
    | Stop
    | Connect(path: string)
    | Subscribe(client: nat)
    | Changed(client: nat)
    | Borrow(client: nat)
    | Write(client: nat, ok: bool)
    | Disconnect(client: nat)

  datatype BroadcastStatus = Sent | InvalidRoute | InvalidFrame

  const EMPTY := Hub([], map[], map[], {}, [])

  /** What fmh_ws_broadcast answers: the path's form, then the frame, then the route. */
  function StatusOf(h: Hub, path: string, frame: Frame): BroadcastStatus {
    if path == "" || path[0] != '/' then InvalidRoute
    else if !Validate(frame) then InvalidFrame
    else if path !in h.ws then InvalidRoute
    else BroadcastStatus.Sent
  }

  predicate HasReceiver(h: Hub, c: nat) {
    exists i :: 0 <= i < |h.clients| && h.clients[i].channel == c && h.clients[i].Receiving()
  }

  function Send(h: Hub, c: nat, frame: Frame): Hub {
    if c < |h.channels| && HasReceiver(h, c) then h.(channels := h.channels[c := h.channels[c].Sent(frame)]) else h
  }

  /** The sender a connection gets: a plain route goes before an Axis route. */
  function ResolveSender(h: Hub, path: string): Option<nat> {
    if path in h.ws then Some(h.ws[path])
    else if path in h.axis then Some(h.axis[path])
    else None
  }

  /** One step of a client that holds a receiver; the channel is as it is at that moment. */
  function ClientStep(ch: Channel, c: Client, step: Step): (r: Client)
    ensures r.channel == c.channel
  {
    match step
    case Subscribe(_) =>
      if c.phase.Connected? then c.(phase := Waiting, subscribed := ch.Version(), seen := ch.Version()) else c
    case Changed(_) =>
      if c.phase.Waiting? && c.seen != ch.Version() then c.(phase := Woken, seen := ch.Version()) else c
    case Borrow(_) =>
      if !c.phase.Woken? then c
      else if ch.current == [] then c.(phase := Waiting)
      else c.(phase := Holding(ch.Version(), ch.current))
    case Write(_, ok) =>
      if !c.phase.Holding? then c
      else if !ok then c.(phase := Closed)
      else c.(phase := Waiting, written := c.written + [Message(c.phase.version, c.seen, c.phase.frame)])
    case Disconnect(_) => c.(phase := Closed)
    case _ => c
  }

  predicate OfClient(step: Step) {
    step.Subscribe? || step.Changed? || step.Borrow? || step.Write? || step.Disconnect?
  }

  /** One step of the whole; a step that is not possible changes nothing. */
  function Next(h: Hub, step: Step): Hub {
    match step
    case RegisterWebSocket(path) =>
      if RoutePatterns.ValidPath(path) then h.(channels := h.channels + [NEW_CHANNEL], ws := h.ws[path := |h.channels|]) else h
    case RegisterAxis(path, fpsValid) =>
      if fpsValid && RoutePatterns.ValidPath(path) then
        h.(channels := h.channels + [NEW_CHANNEL], axis := h.axis[path := |h.channels|],
           streams := h.streams + {|h.channels|})
      else h
    case Broadcast(path, frame) => if StatusOf(h, path, frame).Sent? then Send(h, h.ws[path], frame) else h
    case AxisFrame(stream, payload, timestamp) =>
      if stream in h.streams && payload != [] then Send(h, stream, Encode(1, 0, timestamp, payload)) else h
    case Stop => h.(ws := map[], axis := map[])
    case Connect(path) =>
      match ResolveSender(h, path) {
        case None => h
        case Some(c) => h.(clients := h.clients + [Client(c, Connected, 0, 0, [])])
      }
    case _ => NextOfClient(h, step)
  }

  function NextOfClient(h: Hub, step: Step): Hub
    requires OfClient(step)
  {
    if step.client < |h.clients| && h.clients[step.client].channel < |h.channels| then
      var c := h.clients[step.client];
      h.(clients := h.clients[step.client := ClientStep(h.channels[c.channel], c, step)])
    else h
  }

  // ----- the invariant

  /** The messages of one client: versions never go back; a version comes twice only in a row, the
      first time because it was published after the wake-up that delivered it, and the second time
      as the version that wake-up announced. */
  predicate Ordered(written: seq<Message>) {
    forall i, j :: 0 <= i < j < |written| ==>
      && written[i].version <= written[j].version
      && (written[i].version == written[j].version ==>
            j == i + 1 && written[i].seen < written[i].version && written[j].seen == written[j].version)
  }

  predicate MessagesFrom(ch: Channel, subscribed: nat, written: seq<Message>) {
    forall i :: 0 <= i < |written| ==>
      subscribed < written[i].seen <= written[i].version <= ch.Version() && written[i].frame == ch.At(written[i].version)
  }

  predicate ClientInv(ch: Channel, c: Client) {
    && ch.Valid()
    && c.subscribed <= c.seen <= ch.Version()
    && Ordered(c.written) && MessagesFrom(ch, c.subscribed, c.written)
    && (c.phase.Connected? ==> c.written == [])
    && (c.phase.Waiting? ==> c.seen == if c.written == [] then c.subscribed else c.written[|c.written| - 1].seen)
    && (c.phase.Woken? || c.phase.Holding? ==>
          c.subscribed < c.seen
          && (c.written != [] ==> c.written[|c.written| - 1].seen < c.seen && c.written[|c.written| - 1].version <= c.seen))
    && (c.phase.Holding? ==> c.seen <= c.phase.version <= ch.Version() && c.phase.frame == ch.At(c.phase.version))
  }

  predicate Inv(h: Hub) {
    && (forall p :: p in h.ws ==> h.ws[p] < |h.channels|)
    && (forall p :: p in h.axis ==> h.axis[p] < |h.channels|)
    && (forall s :: s in h.streams ==> s < |h.channels|)
    && (forall c :: 0 <= c < |h.channels| ==> h.channels[c].Valid())
    && (forall i :: 0 <= i < |h.clients| ==>
          h.clients[i].channel < |h.channels| && ClientInv(h.channels[h.clients[i].channel], h.clients[i]))
  }

  lemma WriteKeepsOrder(written: seq<Message>, m: Message)
    requires Ordered(written) && m.seen <= m.version
    requires forall i :: 0 <= i < |written| ==> written[i].seen <= written[i].version
    requires written != [] ==> written[|written| - 1].seen < m.seen && written[|written| - 1].version <= m.seen
    ensures Ordered(written + [m])
  {
    var longer := written + [m];
    forall i | 0 <= i < |written|
      ensures longer[i].version <= m.version
      ensures longer[i].version == m.version ==> i == |written| - 1 && longer[i].seen < longer[i].version && m.seen == m.version
    {
      var last := written[|written| - 1];
      assert i < |written| - 1 ==> written[i].version <= last.version;
    }
  }

  lemma ClientStepInv(ch: Channel, c: Client, step: Step)
    requires ClientInv(ch, c)
    ensures ClientInv(ch, ClientStep(ch, c, step))
  {
    assert ch.At(ch.Version()) == ch.current;
    if step.Write? && c.phase.Holding? && step.ok {
      WriteKeepsOrder(c.written, Message(c.phase.version, c.seen, c.phase.frame));
    }
  }

  lemma ChannelGrows(ch: Channel, frame: Frame, c: Client)
    requires ClientInv(ch, c) && frame != []
    ensures ClientInv(ch.Sent(frame), c)
  {
    forall v | 0 <= v <= ch.Version() ensures ch.Sent(frame).At(v) == ch.At(v) {
    }
  }

  lemma SendInv(h: Hub, c: nat, frame: Frame)
    requires Inv(h) && c < |h.channels| && frame != []
    ensures Inv(Send(h, c, frame))
  {
    forall i | 0 <= i < |h.clients| && h.clients[i].channel == c
      ensures ClientInv(h.channels[c].Sent(frame), h.clients[i])
    {
      ChannelGrows(h.channels[c], frame, h.clients[i]);
    }
  }

  lemma NewChannelInv(h: Hub)
    requires Inv(h)
    ensures Inv(h.(channels := h.channels + [NEW_CHANNEL]))
  {
  }

  lemma NewClientInv(h: Hub, c: nat)
    requires Inv(h) && c < |h.channels|
    ensures Inv(h.(clients := h.clients + [Client(c, Connected, 0, 0, [])]))
  {
  }

  lemma NextInv(h: Hub, step: Step)
    requires Inv(h)
    ensures Inv(Next(h, step))
  {
    match step
    case Broadcast(path, frame) =>
      if StatusOf(h, path, frame).Sent? {
        SendInv(h, h.ws[path], frame);
      }
    case AxisFrame(stream, payload, timestamp) =>
      if stream in h.streams && payload != [] {
        SendInv(h, stream, Encode(1, 0, timestamp, payload));
      }
    case Connect(path) =>
      if ResolveSender(h, path).Some? {
        NewClientInv(h, ResolveSender(h, path).value);
      }
    case RegisterWebSocket(path) => NewChannelInv(h);
    case RegisterAxis(path, _) => NewChannelInv(h);
    case Stop =>
    case _ => ClientsInv(h, step);
  }

  lemma ClientsInv(h: Hub, step: Step)
    requires Inv(h) && OfClient(step)
    ensures Inv(NextOfClient(h, step))
  {
    if step.client < |h.clients| {
      var c := h.clients[step.client];
      ClientStepInv(h.channels[c.channel], c, step);
      ReplaceClient(h, step.client, ClientStep(h.channels[c.channel], c, step));
    }
  }

  lemma ReplaceClient(h: Hub, i: nat, c: Client)
    requires Inv(h) && i < |h.clients| && c.channel == h.clients[i].channel
    requires ClientInv(h.channels[c.channel], c)
    ensures Inv(h.(clients := h.clients[i := c]))
  {
  }

  /** The state after any sequence of steps, from the start. */
  ghost function Run(steps: seq<Step>): Hub {
    if steps == [] then EMPTY else Next(Run(steps[..|steps| - 1]), steps[|steps| - 1])
  }

  lemma {:induction false} RunInv(steps: seq<Step>)
    ensures Inv(Run(steps))
  {
    if steps == [] {
    } else {
      RunInv(steps[..|steps| - 1]);
      NextInv(Run(steps[..|steps| - 1]), steps[|steps| - 1]);
    }
  }

  // ----- what a client sees

  function CountVersion(written: seq<Message>, v: nat): nat {
    if written == [] then 0
    else CountVersion(written[..|written| - 1], v) + if written[|written| - 1].version == v then 1 else 0
  }

  /** Some message with this version was overtaken by its publication: it was published between
      the wake-up and the borrow. */
  predicate Raced(written: seq<Message>, v: nat) {
    exists i :: 0 <= i < |written| && written[i].version == v && written[i].seen < v
  }

  lemma {:induction false} CountBounds(written: seq<Message>, v: nat)
    requires Ordered(written) && forall i :: 0 <= i < |written| ==> written[i].seen <= written[i].version
    ensures CountVersion(written, v) <= 2
    ensures CountVersion(written, v) == 2 ==> Raced(written, v) && written[|written| - 1].version >= v
    ensures CountVersion(written, v) > 0 ==> exists i :: 0 <= i < |written| && written[i].version == v
  {
    if written == [] {
    } else {
      var before, last := written[..|written| - 1], written[|written| - 1];
      CountBounds(before, v);
      assert forall i :: 0 <= i < |before| ==> before[i] == written[i];
      if CountVersion(before, v) > 0 && last.version == v {
        var i :| 0 <= i < |before| && before[i].version == v;
        assert i == |before| - 1 && written[i].seen < v;
        if CountVersion(before, v) == 2 {
          TwiceEndsSeen(before, v);
        }
      }
    }
  }

  /** Once a version has come twice, its last message had it marked seen. */
  lemma {:induction false} TwiceEndsSeen(written: seq<Message>, v: nat)
    requires Ordered(written) && CountVersion(written, v) >= 2 && written[|written| - 1].version == v
    ensures written[|written| - 1].seen == v
  {
    var before := written[..|written| - 1];
    CountFinds(before, v);
    var i :| 0 <= i < |before| && before[i].version == v;
    assert written[i] == before[i];
  }

  lemma {:induction false} CountFinds(written: seq<Message>, v: nat)
    ensures CountVersion(written, v) > 0 ==> exists i :: 0 <= i < |written| && written[i].version == v
  {
    if written == [] {
    } else {
      CountFinds(written[..|written| - 1], v);
    }
  }

  /** In every run, for every client: versions never decrease, only frames published after its
      subscription arrive, none more than twice, and more than once only if it was published
      between the wake-up and the borrow that first delivered it. */
  lemma DeliveryOverRuns(steps: seq<Step>, i: nat)
    requires i < |Run(steps).clients|
    ensures var c := Run(steps).clients[i];
            && (forall j, k :: 0 <= j < k < |c.written| ==> c.written[j].version <= c.written[k].version)
            && (forall j :: 0 <= j < |c.written| ==> c.subscribed < c.written[j].version)
            && (forall v :: CountVersion(c.written, v) <= 2 && (CountVersion(c.written, v) == 2 ==> Raced(c.written, v)))
  {
    RunInv(steps);
    var c := Run(steps).clients[i];
    forall v: nat
      ensures CountVersion(c.written, v) <= 2 && (CountVersion(c.written, v) == 2 ==> Raced(c.written, v))
    {
      CountBounds(c.written, v);
    }
  }

  /** A waiting client with nothing unseen has been given the current frame last, unless nothing
      was published since it subscribed. */
  lemma NothingMissed(steps: seq<Step>, i: nat)
    requires i < |Run(steps).clients| && Run(steps).clients[i].phase.Waiting?
    ensures var h := Run(steps);
            var c := h.clients[i];
            c.channel < |h.channels|
            && (c.seen == h.channels[c.channel].Version() ==>
                  if c.written == [] then c.subscribed == c.seen
                  else c.written[|c.written| - 1].version == c.seen
                       && c.written[|c.written| - 1].frame == h.channels[c.channel].current)
  {
    RunInv(steps);
  }

  // ----- every message is a valid envelope

  /** Every frame ever published is a valid envelope. */
  predicate FramesValid(h: Hub) {
    forall c, v :: 0 <= c < |h.channels| && 1 <= v <= h.channels[c].Version() ==> Validate(h.channels[c].At(v))
  }

  /** Axis payloads fit the length field, and clocks their 64 bits. */
  predicate AxisSafe(step: Step) {
    step.AxisFrame? ==> |step.payload| < PAYLOAD_LIMIT && step.timestamp < Power256(8)
  }

  lemma SendValid(h: Hub, c: nat, frame: Frame)
    requires FramesValid(h) && Validate(frame)
    ensures FramesValid(Send(h, c, frame))
  {
    if c < |h.channels| {
      var ch := h.channels[c];
      forall v | 1 <= v <= ch.Sent(frame).Version() ensures Validate(ch.Sent(frame).At(v)) {
        assert v <= ch.Version() ==> ch.Sent(frame).At(v) == ch.At(v);
      }
    }
  }

  lemma NextValid(h: Hub, step: Step)
    requires FramesValid(h) && AxisSafe(step)
    ensures FramesValid(Next(h, step))
  {
    if step.AxisFrame? {
      Widths();
      ParseEncode(1, 0, step.timestamp, step.payload);
      SendValid(h, step.stream, Encode(1, 0, step.timestamp, step.payload));
    } else if step.Broadcast? && StatusOf(h, step.path, step.frame).Sent? {
      SendValid(h, h.ws[step.path], step.frame);
    }
  }

  lemma {:induction false} FramesStayValid(steps: seq<Step>)
    requires forall s :: s in steps ==> AxisSafe(s)
    ensures FramesValid(Run(steps))
  {
    if steps == [] {
    } else {
      var before := steps[..|steps| - 1];
      forall s | s in before ensures AxisSafe(s) {
      }
      FramesStayValid(before);
      assert steps[|steps| - 1] in steps;
      NextValid(Run(before), steps[|steps| - 1]);
    }
  }

  /** Over every sequence of registrations, broadcasts, stops and fitting Axis frames, every message
      a client is sent is non-empty and a valid envelope. */
  lemma MessagesValid(steps: seq<Step>, i: nat, j: nat)
    requires forall s :: s in steps ==> AxisSafe(s)
    requires i < |Run(steps).clients| && j < |Run(steps).clients[i].written|
    ensures Run(steps).clients[i].written[j].frame != [] && Validate(Run(steps).clients[i].written[j].frame)
  {
    RunInv(steps);
    FramesStayValid(steps);
  }

  lemma RunStep(before: seq<Step>, step: Step)
    ensures Run(before + [step]) == Next(Run(before), step)
  {
    assert (before + [step])[..|before|] == before;
  }

  /** A hub with one Axis stream and one client. */
  function OneClientHub(channel: Channel, c: Client): Hub {
    Hub([channel], map[], map["/a" := 0], {0}, [c])
  }

  lemma OneStream()
    ensures Next(EMPTY, RegisterAxis("/a", true)) == Hub([NEW_CHANNEL], map[], map["/a" := 0], {0}, [])
    ensures Next(Next(EMPTY, RegisterAxis("/a", true)), Connect("/a"))
         == OneClientHub(NEW_CHANNEL, Client(0, Connected, 0, 0, []))
  {
    assert [] + [NEW_CHANNEL] == [NEW_CHANNEL];
  }

  lemma OneClientSteps(channel: Channel, c: Client, step: Step)
    requires OfClient(step) && step.client == 0 && c.channel == 0
    ensures Next(OneClientHub(channel, c), step) == OneClientHub(channel, ClientStep(channel, c, step))
  {
    assert [c][0 := ClientStep(channel, c, step)] == [ClientStep(channel, c, step)];
  }

  lemma OneClientSend(channel: Channel, c: Client, payload: seq<Octet>, timestamp: nat)
    requires payload != [] && c.channel == 0 && c.Receiving()
    ensures Next(OneClientHub(channel, c), AxisFrame(0, payload, timestamp))
         == OneClientHub(channel.Sent(Encode(1, 0, timestamp, payload)), c)
  {
    var h := OneClientHub(channel, c);
    assert h.clients[0].channel == 0 && h.clients[0].Receiving();
    assert [channel][0 := channel.Sent(Encode(1, 0, timestamp, payload))] == [channel.Sent(Encode(1, 0, timestamp, payload))];
  }

  function DeliveryPrefix(): seq<Step> {
    [] + [RegisterAxis("/a", true)] + [Connect("/a")] + [Subscribe(0)]
  }

  function Delivery(payload: seq<Octet>, timestamp: nat): seq<Step> {
    DeliveryPrefix() + [AxisFrame(0, payload, timestamp)] + [Changed(0)] + [Borrow(0)] + [Write(0, true)]
  }

  lemma ClientReady()
    ensures Run(DeliveryPrefix()) == OneClientHub(NEW_CHANNEL, Client(0, Waiting, 0, 0, []))
  {
    RunStep([], RegisterAxis("/a", true));
    RunStep([] + [RegisterAxis("/a", true)], Connect("/a"));
    RunStep([] + [RegisterAxis("/a", true)] + [Connect("/a")], Subscribe(0));
    OneStream();
    OneClientSteps(NEW_CHANNEL, Client(0, Connected, 0, 0, []), Subscribe(0));
  }

  /** In this run the client is sent the frame the stream built, once. */
  lemma DeliveryRun(payload: seq<Octet>, timestamp: nat)
    requires payload != []
    ensures var frame := Encode(1, 0, timestamp, payload);
            Run(Delivery(payload, timestamp)).clients == [Client(0, Waiting, 0, 1, [Message(1, 1, frame)])]
  {
    ClientReady();
    var frame := Encode(1, 0, timestamp, payload);
    var s4 := DeliveryPrefix() + [AxisFrame(0, payload, timestamp)];
    var c, ch := Client(0, Waiting, 0, 0, []), NEW_CHANNEL.Sent(frame);
    RunStep(DeliveryPrefix(), AxisFrame(0, payload, timestamp));
    OneClientSend(NEW_CHANNEL, c, payload, timestamp);
    RunStep(s4, Changed(0));
    OneClientSteps(ch, c, Changed(0));
    RunStep(s4 + [Changed(0)], Borrow(0));
    OneClientSteps(ch, c.(phase := Woken, seen := 1), Borrow(0));
    RunStep(s4 + [Changed(0)] + [Borrow(0)], Write(0, true));
    OneClientSteps(ch, c.(phase := Holding(1, frame), seen := 1), Write(0, true));
    assert [] + [Message(1, 1, frame)] == [Message(1, 1, frame)];
  }

  /** The limit is sharp: in this run the client's message is a valid envelope exactly when the
      payload fits the length field. */
  lemma LimitIsSharp(payload: seq<Octet>, timestamp: nat)
    requires payload != [] && timestamp < Power256(8)
    ensures var clients := Run(Delivery(payload, timestamp)).clients;
            |clients| == 1 && |clients[0].written| == 1
            && (Validate(clients[0].written[0].frame) <==> |payload| < PAYLOAD_LIMIT)
  {
    DeliveryRun(payload, timestamp);
    Widths();
    ParseEncode(1, 0, timestamp, payload);
  }
}
