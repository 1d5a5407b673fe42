/** What holds in every run of the bridge. */
module BridgeProofs {
  import opened Basics
  import opened TaskBridge
  import opened BridgeSystem

  // ----- connection tasks keep the invariant

  lemma ArriveInv(s: System)
    requires Inv(s)
    ensures Inv(Next(s, Arrive))
  {
    var t := Next(s, Arrive);
    forall r | 0 <= r < |t.phases| ensures PhaseOk(t, r) {
      assert r < |s.phases| ==> PhaseOk(s, r);
    }
    PendingKept(s, t);
  }

  /** Wakes stay pending when every phase that will fire stays. */
  lemma PendingKept(s: System, t: System)
    requires |s.phases| <= |t.phases|
    requires forall r :: 0 <= r < |s.phases| && (s.phases[r].Sent? || s.phases[r].Loaded?) ==> t.phases[r] == s.phases[r]
    ensures forall g, e :: WakePending(s, g, e) ==> WakePending(t, g, e)
  {
    forall g, e | WakePending(s, g, e) ensures WakePending(t, g, e) {
      var r :| 0 <= r < |s.phases| && WillFire(s.phases[r], g, e);
      assert WillFire(t.phases[r], g, e);
    }
  }

  /** A change of one phase. */
  lemma OnePhase(s: System, t: System, r: nat)
    requires PhasesOk(s) && t.gens == s.gens && t.rust == s.rust && |t.conds| == |s.conds|
    requires r < |s.phases| == |t.phases| && t.phases == s.phases[r := t.phases[r]] && PhaseOk(t, r)
    ensures PhasesOk(t)
  {
    forall i | 0 <= i < |t.phases| ensures PhaseOk(t, i) {
      assert PhaseOk(s, i);
    }
  }

  lemma QuietPhaseFlow(s: System, r: nat, p: Phase)
    requires FlowOk(s) && r < |s.phases|
    requires !s.phases[r].Sent? && !s.phases[r].Loaded? && !p.Sent? && !p.Loaded?
    ensures FlowOk(WithPhase(s, r, p))
  {
    PendingKept(s, WithPhase(s, r, p));
  }

  /** A change of one phase to one that fires nothing, from one that fires nothing. */
  lemma QuietPhaseInv(s: System, r: nat, p: Phase)
    requires Inv(s) && r < |s.phases|
    requires !s.phases[r].Sent? && !s.phases[r].Loaded? && !p.Sent? && !p.Loaded?
    requires PhaseOk(WithPhase(s, r, p), r)
    ensures Inv(WithPhase(s, r, p))
  {
    OnePhase(s, WithPhase(s, r, p), r);
    QuietPhaseFlow(s, r, p);
  }

  lemma CloneSenderInv(s: System, r: nat)
    requires Inv(s)
    ensures Inv(Next(s, CloneSender(r)))
  {
    if r < |s.phases| && s.phases[r].Started? {
      assert PhaseOk(s, r);
      QuietPhaseInv(s, r, if s.rust.tx.Some? then Sending(s.rust.tx.value) else Failed);
    }
  }

  lemma AnswerInv(s: System, r: nat)
    requires Inv(s) && r < |s.phases| && s.phases[r].Awaiting? && r in s.rust.replies
    ensures Inv(WithPhase(s, r, Answered(s.rust.replies[r])))
  {
    QuietPhaseInv(s, r, Answered(s.rust.replies[r]));
  }

  lemma FailInv(s: System, r: nat)
    requires Inv(s) && r < |s.phases| && !s.phases[r].Sent? && !s.phases[r].Loaded?
    ensures Inv(WithPhase(s, r, Failed))
  {
    QuietPhaseInv(s, r, Failed);
  }

  lemma ReceiveInv(s: System, r: nat)
    requires Inv(s)
    ensures Inv(Next(s, Receive(r)))
  {
    if r < |s.phases| && s.phases[r].Awaiting? {
      ReceivesInv(s, r);
    }
  }

  lemma ReceivesInv(s: System, r: nat)
    requires Inv(s) && r < |s.phases| && s.phases[r].Awaiting?
    ensures Inv(Receives(s, r))
  {
    FailInv(s, r);
    if r in s.rust.replies {
      AnswerInv(s, r);
    }
  }

  lemma CancelInv(s: System, r: nat)
    requires Inv(s)
    ensures Inv(Next(s, Cancel(r)))
  {
    if r < |s.phases| && (s.phases[r].Started? || s.phases[r].Sending? || s.phases[r].Awaiting?) {
      FailInv(s, r);
    }
  }

  lemma LoadNotifierFlow(s: System, r: nat)
    requires FlowOk(s) && r < |s.phases| && s.phases[r].Sent?
    ensures FlowOk(Next(s, LoadNotifier(r)))
  {
    var t := Next(s, LoadNotifier(r));
    if LoopStarted(s) && Connected(s) && (s.control.Idle? || s.control.Stopping1?) {
      var e, g := s.current.value, s.rust.tx.value;
      if WakePending(s, g, e) {
        var i :| 0 <= i < |s.phases| && WillFire(s.phases[i], g, e);
        assert WillFire(t.phases[i], g, e);
      }
    }
  }

  lemma LoadNotifierInv(s: System, r: nat)
    requires Inv(s)
    ensures Inv(Next(s, LoadNotifier(r)))
  {
    if r < |s.phases| && s.phases[r].Sent? {
      assert PhaseOk(s, r);
      OnePhase(s, Next(s, LoadNotifier(r)), r);
      LoadNotifierFlow(s, r);
    }
  }

  /** A wake that was pending is still pending, unless it has just set the flag. */
  lemma FireFlow(s: System, r: nat)
    requires FlowOk(s) && r < |s.phases| && s.phases[r].Loaded?
    ensures FlowOk(Next(s, Fire(r)))
  {
    var t := Next(s, Fire(r));
    if LoopStarted(s) && Connected(s) && (s.control.Idle? || s.control.Stopping1?) {
      var e, g := s.current.value, s.rust.tx.value;
      if WakePending(s, g, e) {
        var i :| 0 <= i < |s.phases| && WillFire(s.phases[i], g, e);
        assert i != r ==> WillFire(t.phases[i], g, e);
      }
    }
  }

  lemma FireInv(s: System, r: nat)
    requires Inv(s)
    ensures Inv(Next(s, Fire(r)))
  {
    if r < |s.phases| && s.phases[r].Loaded? {
      assert PhaseOk(s, r);
      OnePhase(s, Next(s, Fire(r)), r);
      FireFlow(s, r);
    }
  }

  lemma ChannelsPush(channels: seq<Channel>, gens: seq<Option<nat>>, g: nat, r: nat)
    requires ChannelsOk(channels, gens) && g < |channels| && r < |gens| && gens[r] == None
    requires channels[g].open && |channels[g].queue| < CAPACITY
    ensures ChannelsOk(channels[g := Push(channels[g], r)], gens[r := Some(g)])
  {
    var channels', gens' := channels[g := Push(channels[g], r)], gens[r := Some(g)];
    forall g' | 0 <= g' < |channels'| ensures SentThrough(channels'[g'].sent, g', gens') {
      assert SentThrough(channels[g'].sent, g', gens);
    }
    assert r in Push(channels[g], r).sent;
  }

  lemma SendsData(s: System, r: nat)
    requires DataOk(s) && r < |s.phases| && s.phases[r].Sending? && Sends(s, r).phases[r].Sent?
    ensures DataOk(Sends(s, r))
  {
    var g, t := s.phases[r].channel, Sends(s, r);
    assert PhaseOk(s, r);
    ChannelsPush(s.rust.channels, s.gens, g, r);
    forall i | 0 <= i < |t.phases| ensures PhaseOk(t, i) {
      assert PhaseOk(s, i);
    }
  }

  /** The task just queued is its own pending wake. */
  lemma SendsFlow(s: System, r: nat)
    requires FlowOk(s) && r < |s.phases| && s.phases[r].Sending? && Sends(s, r).phases[r].Sent?
    ensures FlowOk(Sends(s, r))
  {
    var t := Sends(s, r);
    if LoopStarted(s) && Connected(s) && (s.control.Idle? || s.control.Stopping1?) {
      var e, g := s.current.value, s.rust.tx.value;
      PendingKept(s, t);
      if s.phases[r].channel == g {
        assert WillFire(t.phases[r], g, e);
      }
    }
  }

  lemma SendTaskInv(s: System, r: nat)
    requires Inv(s)
    ensures Inv(Next(s, SendTask(r)))
  {
    if r < |s.phases| && s.phases[r].Sending? {
      if Sends(s, r).phases[r].Sent? {
        SendsData(s, r);
        SendsFlow(s, r);
      } else if Sends(s, r) != s {
        FailInv(s, r);
      }
    }
  }

  // ----- the caller keeps the invariant

  lemma PhasesKept(s: System, t: System)
    requires PhasesOk(s) && t.phases == s.phases && t.gens == s.gens && t.rust.replies == s.rust.replies
    requires |s.rust.channels| <= |t.rust.channels| && |s.conds| <= |t.conds|
    ensures PhasesOk(t)
  {
    forall i | 0 <= i < |t.phases| ensures PhaseOk(t, i) {
      assert PhaseOk(s, i);
    }
  }

  lemma DataKept(s: System, t: System)
    requires DataOk(s) && t.phases == s.phases && t.gens == s.gens && t.handlers == s.handlers
    requires t.rust.channels == s.rust.channels && t.rust.handles == s.rust.handles && t.rust.replies == s.rust.replies
    requires |s.conds| <= |t.conds|
    ensures DataOk(t)
  {
    PhasesKept(s, t);
  }

  lemma ServeNotifierFlow(s: System)
    requires FlowOk(s)
    ensures FlowOk(Next(s, ServeNotifier))
  {
  }

  lemma ServeRunFlow(s: System)
    requires FlowOk(s)
    ensures FlowOk(Next(s, ServeRun))
  {
  }

  lemma ServeBoundFlow(s: System, ok: bool)
    requires FlowOk(s)
    ensures FlowOk(Next(s, ServeBound(ok)))
  {
  }

  lemma StopBeginFlow(s: System)
    requires FlowOk(s)
    ensures FlowOk(Next(s, StopBegin))
  {
  }

  lemma StopRustFlow(s: System)
    requires FlowOk(s)
    ensures FlowOk(Next(s, StopRust))
  {
  }

  lemma StopWakeFlow(s: System)
    requires FlowOk(s)
    ensures FlowOk(Next(s, StopWake))
  {
  }

  lemma StopDoneFlow(s: System)
    requires FlowOk(s)
    ensures FlowOk(Next(s, StopDone))
  {
  }

  lemma ClosedOk(ch: Channel)
    requires ChannelOk(ch)
    ensures ChannelOk(Closed(ch))
  {
  }

  lemma ChannelsReplace(channels: seq<Channel>, gens: seq<Option<nat>>, rx: Option<nat>)
    requires ChannelsOk(channels, gens) && (rx.Some? ==> rx.value < |channels|)
    ensures ChannelsOk((if rx.Some? then channels[rx.value := Closed(channels[rx.value])] else channels) + [NEW_CHANNEL], gens)
  {
    if rx.Some? {
      ClosedOk(channels[rx.value]);
    }
  }

  /** No task has been sent through a channel that is just being made. */
  lemma FreshChannelUntargeted(s: System)
    requires ShapeOk(s) && ChannelsOk(s.rust.channels, s.gens) && PhasesOk(s) && s.control.Serving2?
    ensures TargetsOk(Next(s, ServeStart))
  {
    var t := Next(s, ServeStart);
    forall r | 0 <= r < |t.phases| && t.phases[r].Loaded? ensures t.rust.tx != Some(t.phases[r].channel) {
      assert PhaseOk(s, r);
    }
  }

  lemma ServeStartShape(s: System)
    requires ShapeOk(s) && StopOk(s) && s.control.Serving2?
    ensures ShapeOk(Next(s, ServeStart)) && WakesOk(Next(s, ServeStart)) && StopOk(Next(s, ServeStart))
  {
  }

  lemma ServeStartData(s: System)
    requires DataOk(s) && ShapeOk(s) && s.control.Serving2?
    ensures DataOk(Next(s, ServeStart))
  {
    ChannelsReplace(s.rust.channels, s.gens, s.rust.rx);
    PhasesKept(s, Next(s, ServeStart));
  }

  lemma ServeStartInv(s: System)
    requires Inv(s)
    ensures Inv(Next(s, ServeStart))
  {
    if s.control.Serving2? {
      ServeStartShape(s);
      FreshChannelUntargeted(s);
      ServeStartData(s);
    }
  }

  lemma CallerFlow(s: System, step: Step)
    requires FlowOk(s) && OfCaller(step) && !step.ServeStart?
    ensures FlowOk(Next(s, step))
  {
    match step
    case ServeNotifier => ServeNotifierFlow(s);
    case ServeRun => ServeRunFlow(s);
    case ServeBound(ok) => ServeBoundFlow(s, ok);
    case StopBegin => StopBeginFlow(s);
    case StopRust => StopRustFlow(s);
    case StopWake => StopWakeFlow(s);
    case StopDone => StopDoneFlow(s);
  }

  lemma CallerTouchesNoData(s: System, step: Step)
    requires OfCaller(step) && !step.ServeStart?
    ensures var t := Next(s, step);
            && t.phases == s.phases && t.gens == s.gens && t.handlers == s.handlers && |s.conds| <= |t.conds|
            && t.rust.channels == s.rust.channels && t.rust.handles == s.rust.handles && t.rust.replies == s.rust.replies
  {
  }

  lemma CallerData(s: System, step: Step)
    requires DataOk(s) && OfCaller(step) && !step.ServeStart?
    ensures DataOk(Next(s, step))
  {
    CallerTouchesNoData(s, step);
    DataKept(s, Next(s, step));
  }

  lemma CallerInv(s: System, step: Step)
    requires Inv(s) && OfCaller(step)
    ensures Inv(Next(s, step))
  {
    if step.ServeStart? {
      ServeStartInv(s);
    } else {
      CallerFlow(s, step);
      CallerData(s, step);
    }
  }

  // ----- poll loops and handlers keep the invariant

  lemma {:induction false} BusyUpdate(handlers: seq<HandlerPhase>, h: nat, p: HandlerPhase)
    requires h < |handlers|
    ensures Busy(handlers[h := p]) == Busy(handlers) - Weight(handlers[h]) + Weight(p)
  {
    var last := |handlers| - 1;
    if h == last {
      assert handlers[h := p][..last] == handlers[..last];
    } else {
      BusyUpdate(handlers[..last], h, p);
      assert handlers[h := p][..last] == handlers[..last][h := p];
    }
  }

  lemma PollOk(ch: Channel)
    requires ChannelOk(ch) && ch.queue != []
    ensures ChannelOk(ch.(queue := ch.queue[1..], polled := ch.polled + [ch.queue[0]]))
    ensures ch.queue[0] in ch.sent && ch.queue[0] !in ch.polled
  {
    assert ch.queue == [ch.queue[0]] + ch.queue[1..];
    assert ch.sent[|ch.polled|] == ch.queue[0];
    forall i | 0 <= i < |ch.polled| ensures ch.polled[i] != ch.queue[0] {
      assert ch.sent[i] == ch.polled[i];
    }
  }

  lemma HandlesPoll(channels: seq<Channel>, gens: seq<Option<nat>>, g: nat, handles: seq<nat>,
                    handlers: seq<HandlerPhase>, replies: map<nat, Reply>)
    requires ChannelsOk(channels, gens) && HandlesOk(channels, gens, handles, handlers, replies)
    requires g < |channels| && channels[g].queue != []
    ensures var ch := channels[g];
            HandlesOk(channels[g := ch.(queue := ch.queue[1..], polled := ch.polled + [ch.queue[0]])], gens,
                      handles + [ch.queue[0]], handlers + [Pending], replies)
  {
    PollOk(channels[g]);
  }

  // Of the flow conditions, a loop that moves can only touch the one about waiting loops.

  lemma LoopMoves(s: System, e: nat, p: LoopPhase)
    requires FlowOk(s) && e < |s.loops| && !s.loops[e].NotStarted?
    requires !p.NotStarted? && !p.Parked? && !p.Drained?
    ensures FlowOk(WithLoop(s, e, p))
  {
    PendingKept(s, WithLoop(s, e, p));
  }

  /** A loop has found its channel empty, or has seen the server stop. */
  lemma LoopDrains(s: System, e: nat)
    requires FlowOk(s) && e < |s.loops|
    requires (s.loops[e].Polling? && NextTask(s.rust) == None) || (s.loops[e].Draining? && !s.running)
    ensures FlowOk(WithLoop(s, e, Drained))
  {
    PendingKept(s, WithLoop(s, e, Drained));
  }

  lemma LoopParks(s: System, e: nat)
    requires FlowOk(s) && e < |s.loops| && s.loops[e].Drained? && s.running
    ensures FlowOk(WithLoop(s, e, Parked))
  {
    PendingKept(s, WithLoop(s, e, Parked));
  }

  lemma FlagClears(s: System, e: nat)
    requires FlowOk(s) && e < |s.loops| && s.loops[e].Checking?
    ensures FlowOk(s.(conds := s.conds[e := false]))
  {
    PendingKept(s, s.(conds := s.conds[e := false]));
  }

  lemma PollsFlow(s: System)
    requires FlowOk(s) && NextTask(s.rust).Some?
    ensures FlowOk(s.(rust := PollTask(s.rust), handlers := s.handlers + [Pending]))
  {
    var t := s.(rust := PollTask(s.rust), handlers := s.handlers + [Pending]);
    PendingKept(s, t);
    assert forall g :: 0 <= g < |t.rust.channels| && t.rust.channels[g].queue != [] ==> s.rust.channels[g].queue != [];
  }

  lemma PollsData(s: System, e: nat)
    requires DataOk(s) && NextTask(s.rust).Some? && e < |s.loops|
    ensures DataOk(Polls(s, e))
  {
    var g := s.rust.rx.value;
    HandlesPoll(s.rust.channels, s.gens, g, s.rust.handles, s.handlers, s.rust.replies);
    PhasesKept(s, Polls(s, e));
  }

  function WithHandler(s: System, h: nat, p: HandlerPhase): System
    requires h < |s.handlers|
  {
    s.(handlers := s.handlers[h := p], inflight := s.inflight - Weight(s.handlers[h]) + Weight(p))
  }

  lemma HandlerMovesFlow(s: System, h: nat, p: HandlerPhase)
    requires FlowOk(s) && h < |s.handlers|
    ensures FlowOk(WithHandler(s, h, p))
  {
    BusyUpdate(s.handlers, h, p);
    PendingKept(s, WithHandler(s, h, p));
  }

  lemma HandlerMovesData(s: System, h: nat, p: HandlerPhase)
    requires DataOk(s) && h < |s.handlers| && HasReplied(p) == HasReplied(s.handlers[h])
    ensures DataOk(WithHandler(s, h, p))
  {
    PhasesKept(s, WithHandler(s, h, p));
  }

  lemma LoopFlow(s: System, e: nat)
    requires FlowOk(s)
    ensures FlowOk(LoopOf(s, e))
  {
    if e < |s.loops| {
      match s.loops[e]
      case Checking => LoopMoves(s, e, if s.running then Draining else Exited);
      case Draining => if s.running { LoopMoves(s, e, Polling); } else { LoopDrains(s, e); }
      case Polling =>
        if NextTask(s.rust) == None {
          LoopDrains(s, e);
        } else {
          PollsFlow(s);
          LoopMoves(s.(rust := PollTask(s.rust), handlers := s.handlers + [Pending]), e, Spawning(|s.rust.handles|));
        }
      case Spawning(h) =>
        if h < |s.handlers| && s.handlers[h].Pending? {
          HandlerMovesFlow(s, h, Running);
          LoopMoves(WithHandler(s, h, Running), e, Draining);
        } else {
          LoopMoves(s, e, Draining);
        }
      case Drained => if s.running { LoopParks(s, e); } else { LoopMoves(s, e, Checking); }
      case Parked =>
        if s.conds[e] {
          LoopMoves(s, e, Checking);
          FlagClears(WithLoop(s, e, Checking), e);
        }
      case _ =>
    }
  }

  lemma SpawnsData(s: System, e: nat)
    requires DataOk(s) && e < |s.loops| && s.loops[e].Spawning?
    requires s.loops[e].handle < |s.handlers| && s.handlers[s.loops[e].handle].Pending?
    ensures DataOk(Spawns(s, e))
  {
    HandlerMovesData(s, s.loops[e].handle, Running);
    DataKept(WithHandler(s, s.loops[e].handle, Running), Spawns(s, e));
  }

  predicate TakesATask(s: System, e: nat) {
    e < |s.loops| && e < |s.conds| && s.loops[e].Polling? && NextTask(s.rust).Some?
  }

  predicate StartsAHandler(s: System, e: nat) {
    e < |s.loops| && e < |s.conds| && s.loops[e].Spawning?
    && s.loops[e].handle < |s.handlers| && s.handlers[s.loops[e].handle].Pending?
  }

  lemma LoopLeavesData(s: System, e: nat)
    requires !TakesATask(s, e) && !StartsAHandler(s, e)
    ensures var t := LoopOf(s, e);
            t.rust == s.rust && t.phases == s.phases && t.gens == s.gens && t.handlers == s.handlers && |t.conds| == |s.conds|
  {
  }

  lemma LoopData(s: System, e: nat)
    requires DataOk(s)
    ensures DataOk(LoopOf(s, e))
  {
    if TakesATask(s, e) {
      PollsData(s, e);
      assert LoopOf(s, e) == Polls(s, e);
    } else if StartsAHandler(s, e) {
      SpawnsData(s, e);
      assert LoopOf(s, e) == Spawns(s, e);
    } else {
      LoopLeavesData(s, e);
      DataKept(s, LoopOf(s, e));
    }
  }

  lemma CompleteHandles(channels: seq<Channel>, gens: seq<Option<nat>>, handles: seq<nat>,
                        handlers: seq<HandlerPhase>, replies: map<nat, Reply>, h: nat, response: Response)
    requires HandlesOk(channels, gens, handles, handlers, replies) && h < |handlers| && handlers[h].Running?
    ensures handles[h] !in replies
    ensures HandlesOk(channels, gens, handles, handlers[h := Replied], replies[handles[h] := Reply(h, response)])
  {
  }

  lemma RepliesGrow(s: System, t: System)
    requires PhasesOk(s) && t.phases == s.phases && t.gens == s.gens && t.conds == s.conds
    requires forall r :: r in s.rust.replies ==> r in t.rust.replies && t.rust.replies[r] == s.rust.replies[r]
    requires |s.rust.channels| == |t.rust.channels|
    ensures PhasesOk(t)
  {
    forall i | 0 <= i < |t.phases| ensures PhaseOk(t, i) {
      assert PhaseOk(s, i);
    }
  }

  lemma CompleteFlow(s: System, h: nat, response: Response)
    requires FlowOk(s) && h < |s.handlers| && h < |s.rust.handles| && s.handlers[h].Running?
    ensures FlowOk(Next(s, Complete(h, response)))
  {
    BusyUpdate(s.handlers, h, Replied);
    PendingKept(s, Next(s, Complete(h, response)));
  }

  lemma CompletePhases(s: System, h: nat, response: Response)
    requires PhasesOk(s) && h < |s.handlers| && h < |s.rust.handles| && s.handlers[h].Running?
    requires s.rust.handles[h] !in s.rust.replies
    ensures PhasesOk(Next(s, Complete(h, response)))
  {
    RepliesGrow(s, Next(s, Complete(h, response)));
  }

  lemma CompleteData(s: System, h: nat, response: Response)
    requires DataOk(s) && h < |s.handlers| && s.handlers[h].Running?
    ensures DataOk(Next(s, Complete(h, response)))
  {
    CompleteHandles(s.rust.channels, s.gens, s.rust.handles, s.handlers, s.rust.replies, h, Taken(response));
    CompletePhases(s, h, response);
  }

  lemma HandlerFlow(s: System, h: nat, step: Step)
    requires FlowOk(s)
    ensures FlowOk(HandlerStep(s, h, step))
  {
    if h < |s.handlers| && h < |s.rust.handles| {
      match step
      case Complete(_, response) => if s.handlers[h].Running? { CompleteFlow(s, h, response); }
      case LoseReply(_) => if s.handlers[h].Running? { HandlerMovesFlow(s, h, Lost); }
      case Finish(_) =>
        if s.handlers[h].Replied? || s.handlers[h].Lost? { HandlerMovesFlow(s, h, Done(s.handlers[h].Replied?)); }
      case _ =>
    }
  }

  lemma LoseReplyData(s: System, h: nat)
    requires DataOk(s) && h < |s.handlers|
    ensures DataOk(HandlerStep(s, h, LoseReply(h)))
  {
    if s.handlers[h].Running? {
      HandlerMovesData(s, h, Lost);
      DataKept(WithHandler(s, h, Lost), HandlerStep(s, h, LoseReply(h)));
    }
  }

  lemma FinishData(s: System, h: nat)
    requires DataOk(s) && h < |s.handlers|
    ensures DataOk(HandlerStep(s, h, Finish(h)))
  {
    if s.handlers[h].Replied? || s.handlers[h].Lost? {
      var p := Done(s.handlers[h].Replied?);
      HandlerMovesData(s, h, p);
      DataKept(WithHandler(s, h, p), HandlerStep(s, h, Finish(h)));
    }
  }

  lemma HandlerInv(s: System, h: nat, step: Step)
    requires Inv(s) && (step == LoseReply(h) || step == Finish(h) || (step.Complete? && step.h == h))
    ensures Inv(HandlerStep(s, h, step))
  {
    HandlerFlow(s, h, step);
    if h < |s.handlers| {
      match step
      case Complete(_, response) => if s.handlers[h].Running? { CompleteData(s, h, response); }
      case LoseReply(_) => LoseReplyData(s, h);
      case Finish(_) => FinishData(s, h);
    }
  }

  lemma AbortInv(s: System, e: nat)
    requires Inv(s)
    ensures Inv(Next(s, LoopAbort(e)))
  {
    if e < |s.loops| && !s.loops[e].NotStarted? {
      LoopMoves(s, e, Exited);
      DataKept(s, WithLoop(s, e, Exited));
    }
  }

  lemma LoopInv(s: System, e: nat)
    requires Inv(s)
    ensures Inv(LoopOf(s, e))
  {
    LoopFlow(s, e);
    LoopData(s, e);
  }

  predicate OfConnection(step: Step) {
    step.CloneSender? || step.SendTask? || step.LoadNotifier? || step.Fire? || step.Receive? || step.Cancel?
  }

  predicate OfCaller(step: Step) {
    step.ServeNotifier? || step.ServeRun? || step.ServeStart? || step.ServeBound?
    || step.StopBegin? || step.StopRust? || step.StopWake? || step.StopDone?
  }

  lemma ConnectionInv(s: System, step: Step)
    requires Inv(s) && OfConnection(step)
    ensures Inv(Next(s, step))
  {
    match step
    case CloneSender(r) => CloneSenderInv(s, r);
    case SendTask(r) => SendTaskInv(s, r);
    case LoadNotifier(r) => LoadNotifierInv(s, r);
    case Fire(r) => FireInv(s, r);
    case Receive(r) => ReceiveInv(s, r);
    case Cancel(r) => CancelInv(s, r);
  }

  lemma LoopOrHandlerInv(s: System, step: Step)
    requires Inv(s) && !OfConnection(step) && !OfCaller(step)
    ensures Inv(Next(s, step))
  {
    match step
    case Arrive => ArriveInv(s);
    case LoopStep(e) => LoopInv(s, e);
    case LoopAbort(e) => AbortInv(s, e);
    case Complete(h, _) => HandlerInv(s, h, step);
    case LoseReply(h) => HandlerInv(s, h, step);
    case Finish(h) => HandlerInv(s, h, step);
  }

  lemma NextInv(s: System, step: Step)
    requires Inv(s)
    ensures Inv(Next(s, step))
  {
    if OfConnection(step) {
      ConnectionInv(s, step);
    } else if OfCaller(step) {
      CallerInv(s, step);
    } else {
      LoopOrHandlerInv(s, step);
    }
  }
}
