/** The whole bridge: connection tasks, the Rust state, the Julia poll loops and handlers, and the one
    caller that starts and stops the server. Every step is atomic, and any step may come next. */
module BridgeSystem {
  import opened Basics
  import opened TaskBridge

  /** Where a connection task stands in invoke_via_channel. Between sending a task and firing the
      notifier there is no point at which it can be cancelled. */
  datatype Phase =
    | Started
    | Sending(channel: nat)
    | Sent(channel: nat)
    | Loaded(channel: nat, target: Option<nat>)
    | Awaiting(channel: nat)
    | Answered(reply: Reply)
    | Failed

  /** Where a poll loop stands; Spawning has a handle that no handler runs for yet. */
  datatype LoopPhase = NotStarted | Checking | Draining | Polling | Spawning(handle: nat) | Drained | Parked | Exited

  /** A handler of one handle: it replies once, or loses its reply when even the error reply fails. */
  datatype HandlerPhase = Pending | Running | Replied | Lost | Done(replied: bool)

  /** The caller of serve and stop_server!. */
  datatype Control = Idle | Serving1 | Serving2 | Serving3 | Stopping1 | Stopping2 | Stopping3

  /** conds are the wake flags, one for each call of serve, and loops the poll loops that go with
      them; current is the registered condition. gens says through which channel a request's task
      was sent. */
  datatype System = System(rust: Rust, running: bool, current: Option<nat>, conds: seq<bool>, loops: seq<LoopPhase>,
                           handlers: seq<HandlerPhase>, inflight: int, control: Control,
                           phases: seq<Phase>, gens: seq<Option<nat>>)

  const INITIAL := System(STOPPED, false, None, [], [], [], 0, Idle, [], [])

  datatype Step =
    | Arrive | CloneSender(r: nat) | SendTask(r: nat) | LoadNotifier(r: nat) | Fire(r: nat) | Receive(r: nat) | Cancel(r: nat)
    | ServeNotifier | ServeRun | ServeStart | ServeBound(ok: bool)
    | StopBegin | StopRust | StopWake | StopDone
    | LoopStep(e: nat) | LoopAbort(e: nat)
    | Complete(h: nat, response: Response) | LoseReply(h: nat) | Finish(h: nat)

  function Latest(s: System): int {
    |s.conds| - 1
  }

  // ----- connection tasks

  function WithPhase(s: System, r: nat, p: Phase): System
    requires r < |s.phases|
  {
    s.(phases := s.phases[r := p])
  }

  /** Sending waits while the channel is full and fails when its receiver is gone. */
  function Sends(s: System, r: nat): System
    requires r < |s.phases| && s.phases[r].Sending?
  {
    var g := s.phases[r].channel;
    if g >= |s.rust.channels| || !s.rust.channels[g].open then WithPhase(s, r, Failed)
    else if |s.rust.channels[g].queue| >= CAPACITY || r >= |s.gens| then s
    else
      s.(rust := s.rust.(channels := s.rust.channels[g := Push(s.rust.channels[g], r)]),
         phases := s.phases[r := Phase.Sent(g)],
         gens := s.gens[r := Some(g)])
  }

  /** Firing sets the wake flag of the condition whose handle was loaded. */
  function Fires(s: System, r: nat): System
    requires r < |s.phases| && s.phases[r].Loaded?
  {
    var target := s.phases[r].target;
    var conds := if target.Some? && target.value < |s.conds| then s.conds[target.value := true] else s.conds;
    s.(conds := conds, phases := s.phases[r := Awaiting(s.phases[r].channel)])
  }

  /** The reply, if it is there; an error, if the task was dropped. */
  function Receives(s: System, r: nat): System
    requires r < |s.phases| && s.phases[r].Awaiting?
  {
    var g := s.phases[r].channel;
    if r in s.rust.replies then WithPhase(s, r, Answered(s.rust.replies[r]))
    else if g < |s.rust.channels| && r in s.rust.channels[g].lost then WithPhase(s, r, Failed)
    else s
  }

  function ConnectionStep(s: System, r: nat, step: Step): System {
    if r >= |s.phases| then s
    else
      match step
      case CloneSender(_) =>
        if !s.phases[r].Started? then s
        else WithPhase(s, r, if s.rust.tx.Some? then Sending(s.rust.tx.value) else Failed)
      case SendTask(_) => if s.phases[r].Sending? then Sends(s, r) else s
      case LoadNotifier(_) =>
        if s.phases[r].Sent? then WithPhase(s, r, Loaded(s.phases[r].channel, s.rust.notifier)) else s
      case Fire(_) => if s.phases[r].Loaded? then Fires(s, r) else s
      case Receive(_) => if s.phases[r].Awaiting? then Receives(s, r) else s
      case Cancel(_) =>
        if s.phases[r].Started? || s.phases[r].Sending? || s.phases[r].Awaiting? then WithPhase(s, r, Failed) else s
      case _ => s
  }

  // ----- the caller

  function ControlStep(s: System, step: Step): System {
    match step
    case ServeNotifier =>
      if !s.control.Idle? || s.running then s
      else
        var e := |s.conds|;
        s.(conds := s.conds + [false], loops := s.loops + [NotStarted], current := Some(e),
           rust := s.rust.(notifier := Some(e)), control := Serving1)
    case ServeRun => if s.control.Serving1? then s.(running := true, control := Serving2) else s
    case ServeStart =>
      if !s.control.Serving2? then s
      else if s.rust.shutdown then s.(running := false, control := Idle)
      else s.(rust := StartServer(s.rust), control := Serving3)
    case ServeBound(ok) =>
      if !s.control.Serving3? || s.current == None || s.current.value >= |s.loops| then s
      else if ok then s.(loops := s.loops[s.current.value := Checking], control := Idle)
      else s.(rust := s.rust.(shutdown := false), running := false, control := Idle)
    case StopBegin => if s.control.Idle? then s.(running := false, control := Stopping1) else s
    case StopRust => if s.control.Stopping1? then s.(rust := StopServer(s.rust), control := Stopping2) else s
    case StopWake =>
      if !s.control.Stopping2? then s
      else
        var conds := if s.current.Some? && s.current.value < |s.conds| then s.conds[s.current.value := true] else s.conds;
        s.(conds := conds, control := Stopping3)
    case StopDone =>
      if s.control.Stopping3? && s.inflight == 0 then s.(current := None, control := Idle) else s
    case _ => s
  }

  // ----- poll loops

  function WithLoop(s: System, e: nat, p: LoopPhase): System
    requires e < |s.loops|
  {
    s.(loops := s.loops[e := p])
  }

  function Polls(s: System, e: nat): System
    requires e < |s.loops|
  {
    if NextTask(s.rust) == None then WithLoop(s, e, Drained)
    else
      s.(rust := PollTask(s.rust), handlers := s.handlers + [Pending],
         loops := s.loops[e := Spawning(|s.rust.handles|)])
  }

  function Spawns(s: System, e: nat): System
    requires e < |s.loops| && s.loops[e].Spawning?
  {
    var h := s.loops[e].handle;
    if h < |s.handlers| && s.handlers[h].Pending? then
      s.(handlers := s.handlers[h := Running], inflight := s.inflight + 1, loops := s.loops[e := Draining])
    else WithLoop(s, e, Draining)
  }

  /** One step of the loop of serve: the outer check, the check before a poll, the poll, spawning a
      handler, the check before waiting, and the end of a wait, which clears the flag. */
  function LoopOf(s: System, e: nat): System {
    if e >= |s.loops| || e >= |s.conds| then s
    else
      match s.loops[e]
      case Checking => WithLoop(s, e, if s.running then Draining else Exited)
      case Draining => WithLoop(s, e, if s.running then Polling else Drained)
      case Polling => Polls(s, e)
      case Spawning(_) => Spawns(s, e)
      case Drained => WithLoop(s, e, if s.running then Parked else Checking)
      case Parked => if s.conds[e] then WithLoop(s, e, Checking).(conds := s.conds[e := false]) else s
      case _ => s
  }

  // ----- handlers

  function HandlerStep(s: System, h: nat, step: Step): System {
    if h >= |s.handlers| || h >= |s.rust.handles| then s
    else
      match step
      case Complete(_, response) =>
        if s.handlers[h].Running? then
          s.(rust := CompleteTask(s.rust, h, response), handlers := s.handlers[h := Replied])
        else s
      case LoseReply(_) => if s.handlers[h].Running? then s.(handlers := s.handlers[h := Lost]) else s
      case Finish(_) =>
        if s.handlers[h].Replied? || s.handlers[h].Lost? then
          s.(handlers := s.handlers[h := Done(s.handlers[h].Replied?)], inflight := s.inflight - 1)
        else s
      case _ => s
  }

  function Next(s: System, step: Step): System {
    match step
    case Arrive => s.(phases := s.phases + [Started], gens := s.gens + [None])
    case LoopStep(e) => LoopOf(s, e)
    case LoopAbort(e) =>
      if e < |s.loops| && !s.loops[e].NotStarted? then WithLoop(s, e, Exited) else s
    case Complete(h, _) => HandlerStep(s, h, step)
    case LoseReply(h) => HandlerStep(s, h, step)
    case Finish(h) => HandlerStep(s, h, step)
    case CloneSender(r) => ConnectionStep(s, r, step)
    case SendTask(r) => ConnectionStep(s, r, step)
    case LoadNotifier(r) => ConnectionStep(s, r, step)
    case Fire(r) => ConnectionStep(s, r, step)
    case Receive(r) => ConnectionStep(s, r, step)
    case Cancel(r) => ConnectionStep(s, r, step)
    case _ => ControlStep(s, step)
  }

  /** The state after any sequence of steps. */
  ghost function RunFrom(s: System, steps: seq<Step>): System {
    if steps == [] then s else Next(RunFrom(s, steps[..|steps| - 1]), steps[|steps| - 1])
  }

  ghost predicate Reachable(s: System) {
    exists steps :: s == RunFrom(INITIAL, steps)
  }

  // ----- the invariant

  predicate NoDuplicates(s: seq<nat>) {
    forall i, j :: 0 <= i < j < |s| ==> s[i] != s[j]
  }

  /** First in, first out: what was sent is what was polled, then what is queued, then what was lost
      when the receiver went. */
  predicate ChannelOk(ch: Channel) {
    && ch.sent == ch.polled + ch.queue + ch.lost
    && NoDuplicates(ch.sent)
    && |ch.queue| <= CAPACITY
    && (ch.open ==> ch.lost == [])
    && (!ch.open ==> ch.queue == [])
  }

  predicate SentThrough(sent: seq<nat>, g: nat, gens: seq<Option<nat>>) {
    forall i :: 0 <= i < |sent| ==> sent[i] < |gens| && gens[sent[i]] == Some(g)
  }

  predicate ChannelsOk(channels: seq<Channel>, gens: seq<Option<nat>>) {
    && (forall g :: 0 <= g < |channels| ==> ChannelOk(channels[g]))
    && (forall g :: 0 <= g < |channels| ==> SentThrough(channels[g].sent, g, gens))
    && (forall r :: 0 <= r < |gens| && gens[r].Some? ==> gens[r].value < |channels| && r in channels[gens[r].value].sent)
  }

  predicate AllHandled(polled: seq<nat>, handles: seq<nat>) {
    forall i :: 0 <= i < |polled| ==> polled[i] in handles
  }

  /** The handles given out are exactly the tasks polled, each once; the replies are exactly those
      of the handlers that replied. */
  predicate HandlesOk(channels: seq<Channel>, gens: seq<Option<nat>>, handles: seq<nat>,
                      handlers: seq<HandlerPhase>, replies: map<nat, Reply>) {
    && |handlers| == |handles| && NoDuplicates(handles)
    && (forall h :: 0 <= h < |handles| ==>
          handles[h] < |gens| && gens[handles[h]].Some? && gens[handles[h]].value < |channels|
          && handles[h] in channels[gens[handles[h]].value].polled)
    && (forall g :: 0 <= g < |channels| ==> AllHandled(channels[g].polled, handles))
    && (forall r :: r in replies ==>
          replies[r].handle < |handles| && handles[replies[r].handle] == r && HasReplied(handlers[replies[r].handle]))
    && (forall h :: 0 <= h < |handles| && HasReplied(handlers[h]) ==>
          handles[h] in replies && replies[handles[h]].handle == h)
  }

  predicate HasReplied(p: HandlerPhase) {
    p == Replied || p == Done(true)
  }

  predicate PhaseOk(s: System, r: nat)
    requires r < |s.phases| && r < |s.gens|
  {
    match s.phases[r]
    case Started => s.gens[r] == None
    case Sending(g) => s.gens[r] == None && g < |s.rust.channels|
    case Sent(g) => s.gens[r] == Some(g)
    case Loaded(g, target) => s.gens[r] == Some(g) && (target.Some? ==> target.value < |s.conds|)
    case Awaiting(g) => s.gens[r] == Some(g)
    case Answered(reply) => r in s.rust.replies && s.rust.replies[r] == reply
    case Failed => true
  }

  predicate PhasesOk(s: System) {
    |s.phases| == |s.gens| && forall r :: 0 <= r < |s.phases| ==> PhaseOk(s, r)
  }

  function Busy(handlers: seq<HandlerPhase>): nat {
    if handlers == [] then 0
    else Busy(handlers[..|handlers| - 1]) + Weight(handlers[|handlers| - 1])
  }

  function Weight(p: HandlerPhase): nat {
    if p.Running? || p.Replied? || p.Lost? then 1 else 0
  }

  /** Senders, receivers and conditions belong together, and the running flag goes with the caller. */
  predicate ShapeOk(s: System) {
    && |s.loops| == |s.conds|
    && (s.rust.tx.Some? ==> s.rust.tx == s.rust.rx)
    && (s.rust.rx.Some? ==> s.rust.rx.value < |s.rust.channels|)
    && (forall g :: 0 <= g < |s.rust.channels| ==> (s.rust.channels[g].open <==> s.rust.rx == Some(g)))
    && (s.rust.notifier.Some? ==> s.rust.notifier.value < |s.conds|)
    && (s.current.Some? ==> s.current.value == Latest(s))
    && (s.current == None ==> !s.running && s.rust.tx == None)
    && s.inflight == Busy(s.handlers)
    && match s.control
       case Idle => (s.running <==> LoopStarted(s)) && (s.running ==> Connected(s)) && (!s.running ==> !s.rust.shutdown)
       case Serving1 => !s.running && Serving(s) && !s.rust.shutdown
       case Serving2 => s.running && Serving(s) && !s.rust.shutdown
       case Serving3 => s.running && Serving(s) && Connected(s)
       case Stopping1 => !s.running && (LoopStarted(s) ==> Connected(s))
       case _ => !s.running && !s.rust.shutdown && s.rust.tx == None && s.rust.notifier == None
  }

  predicate LoopStarted(s: System) {
    s.current.Some? && s.current.value < |s.loops| && !s.loops[s.current.value].NotStarted?
  }

  predicate Serving(s: System) {
    s.current.Some? && s.current.value < |s.loops| && s.loops[s.current.value].NotStarted? && s.rust.notifier == s.current
  }

  predicate Connected(s: System) {
    s.current.Some? && s.rust.notifier == s.current && s.rust.tx.Some?
  }

  /** A connection task that sent through channel g has not fired yet, and will fire condition e. */
  predicate WakePending(s: System, g: nat, e: nat) {
    exists r :: 0 <= r < |s.phases| && WillFire(s.phases[r], g, e)
  }

  predicate WillFire(p: Phase, g: nat, e: nat) {
    p == Sent(g) || p == Loaded(g, Some(e))
  }

  /** While the server is up, tasks sent through its channel notify its own loop. */
  predicate TargetsOk(s: System) {
    (Connected(s) && (s.control.Serving3? || s.control.Idle? || s.control.Stopping1?)) ==>
      forall r :: 0 <= r < |s.phases| && s.phases[r].Loaded? && s.rust.tx == Some(s.phases[r].channel) ==>
        s.phases[r].target == s.current
  }

  /** A loop about to wait, or waiting, with its flag clear: every queued task has its wake coming. */
  predicate WakesOk(s: System) {
    (LoopStarted(s) && Connected(s) && (s.control.Idle? || s.control.Stopping1?)) ==>
      var e, g := s.current.value, s.rust.tx.value;
      (e < |s.conds| && g < |s.rust.channels|
       && (s.loops[e].Parked? || (s.loops[e].Drained? && s.running)) && !s.conds[e]
       && s.rust.channels[g].queue != []) ==> WakePending(s, g, e)
  }

  /** Once the stop has issued its wake, a waiting loop has its flag set. */
  predicate StopOk(s: System) {
    ((s.current == None || s.control.Stopping3?) && 0 <= Latest(s) < |s.loops|) ==>
      (s.loops[Latest(s)].Parked? ==> s.conds[Latest(s)])
  }

  /** Every task is accounted for. */
  predicate DataOk(s: System) {
    && ChannelsOk(s.rust.channels, s.gens)
    && HandlesOk(s.rust.channels, s.gens, s.rust.handles, s.handlers, s.rust.replies)
    && PhasesOk(s)
  }

  /** The parts agree on who serves, who is woken, and who stops. */
  predicate FlowOk(s: System) {
    ShapeOk(s) && TargetsOk(s) && WakesOk(s) && StopOk(s)
  }

  predicate Inv(s: System) {
    DataOk(s) && FlowOk(s)
  }
}
