/** A handler can still be started after stop_server! has returned: by a loop that passed its running
    check before the stop. */
module BridgeLateStarts {
  import opened Basics
  import opened TaskBridge
  import opened BridgeSystem
  import opened BridgeTheorems
  import opened BridgeRestart
  import opened BridgeLiveness
  import BridgeProofs

  /** A loop that has a handle is the only one that has it, and nothing runs for it yet. */
  predicate HandlesFree(loops: seq<LoopPhase>, handlers: seq<HandlerPhase>) {
    && (forall e :: 0 <= e < |loops| && loops[e].Spawning? ==> loops[e].handle < |handlers| && handlers[loops[e].handle].Pending?)
    && (forall e, e' :: 0 <= e < e' < |loops| && loops[e].Spawning? && loops[e'].Spawning? ==> loops[e].handle != loops[e'].handle)
  }

  lemma LoopKeepsFree(s: System, e: nat)
    requires HandlesFree(s.loops, s.handlers) && |s.handlers| == |s.rust.handles|
    ensures HandlesFree(LoopOf(s, e).loops, LoopOf(s, e).handlers)
  {
  }

  lemma HandlerKeepsFree(s: System, h: nat, step: Step)
    requires HandlesFree(s.loops, s.handlers)
    ensures HandlesFree(HandlerStep(s, h, step).loops, HandlerStep(s, h, step).handlers)
  {
  }

  lemma CallerKeepsFree(s: System, step: Step)
    requires HandlesFree(s.loops, s.handlers)
    ensures HandlesFree(ControlStep(s, step).loops, ControlStep(s, step).handlers)
  {
  }

  lemma ConnectionLeavesLoops(s: System, r: nat, step: Step)
    ensures ConnectionStep(s, r, step).loops == s.loops && ConnectionStep(s, r, step).handlers == s.handlers
  {
  }

  lemma StepKeepsFree(s: System, step: Step)
    requires HandlesFree(s.loops, s.handlers) && |s.handlers| == |s.rust.handles|
    ensures HandlesFree(Next(s, step).loops, Next(s, step).handlers)
  {
    match step
    case LoopStep(e) => LoopKeepsFree(s, e);
    case CloneSender(r) => ConnectionLeavesLoops(s, r, step);
    case SendTask(r) => ConnectionLeavesLoops(s, r, step);
    case LoadNotifier(r) => ConnectionLeavesLoops(s, r, step);
    case Fire(r) => ConnectionLeavesLoops(s, r, step);
    case Receive(r) => ConnectionLeavesLoops(s, r, step);
    case Cancel(r) => ConnectionLeavesLoops(s, r, step);
    case Complete(h, _) => HandlerKeepsFree(s, h, step);
    case LoseReply(h) => HandlerKeepsFree(s, h, step);
    case Finish(h) => HandlerKeepsFree(s, h, step);
    case Arrive =>
    case LoopAbort(_) =>
    case _ => CallerKeepsFree(s, step);
  }

  lemma {:induction false} RunKeepsFree(s: System, steps: seq<Step>)
    requires Inv(s) && HandlesFree(s.loops, s.handlers)
    ensures HandlesFree(RunFrom(s, steps).loops, RunFrom(s, steps).handlers)
  {
    if steps == [] {
    } else {
      var last := |steps| - 1;
      RunKeepsFree(s, steps[..last]);
      RunInv(s, steps[..last]);
      StepKeepsFree(RunFrom(s, steps[..last]), steps[last]);
    }
  }

  lemma ReachableFree(s: System)
    requires Reachable(s)
    ensures HandlesFree(s.loops, s.handlers)
  {
    var steps :| s == RunFrom(INITIAL, steps);
    InitialInv();
    RunKeepsFree(INITIAL, steps);
  }

  /** The next step of loop e starts a handler. */
  predicate StartsHandler(s: System, e: nat) {
    Next(s, LoopStep(e)).inflight == s.inflight + 1
  }

  lemma StartsExactly(s: System, e: nat)
    requires HandlesFree(s.loops, s.handlers) && e < |s.loops| == |s.conds|
    ensures StartsHandler(s, e) <==> s.loops[e].Spawning?
  {
  }

  /** A task can still come through the channel that is polled: one waits, or a connection holds a
      sender of it. */
  predicate TaskToCome(s: System) {
    s.rust.rx.Some? && (NextTask(s.rust).Some? || exists r :: 0 <= r < |s.phases| && s.phases[r] == Sending(s.rust.rx.value))
  }

  /** Loop e has a handle, or is past its running check and a task can still come. */
  predicate MayStart(s: System, e: nat)
    requires e < |s.loops|
  {
    s.loops[e].Spawning? || (s.loops[e].Polling? && TaskToCome(s))
  }

  /** stop_server! has returned, or is being called once more. */
  predicate NoServer(s: System) {
    s.current == None && !s.running && s.rust.tx == None
  }

  /** Without a sender of its channel the queue stays empty. */
  lemma QueueUnfed(s: System, step: Step)
    requires ShapeOk(s) && NoServer(s) && NextTask(s.rust) == None && step != ServeNotifier
    requires s.rust.rx.Some? ==> forall r :: 0 <= r < |s.phases| ==> s.phases[r] != Sending(s.rust.rx.value)
    ensures NextTask(Next(s, step).rust) == None
  {
  }

  lemma NoneComes(s: System, step: Step)
    requires ShapeOk(s) && NoServer(s) && !TaskToCome(s) && step != ServeNotifier
    ensures NoServer(Next(s, step)) && !TaskToCome(Next(s, step))
  {
    NoServerStays(s, step);
    QueueUnfed(s, step);
  }

  lemma NoServerStays(s: System, step: Step)
    requires ShapeOk(s) && NoServer(s) && step != ServeNotifier
    ensures NoServer(Next(s, step)) && Next(s, step).rust.rx == s.rust.rx
  {
    if !BridgeProofs.OfCaller(step) {
      OnlyCallerControls(s, step);
    }
  }

  lemma NeverStarts(s: System, step: Step, e: nat)
    requires ShapeOk(s) && NoServer(s) && e < |s.loops| && !MayStart(s, e) && step != ServeNotifier
    ensures NoServer(Next(s, step)) && e < |Next(s, step).loops| && !MayStart(Next(s, step), e)
  {
    NoServerStays(s, step);
    if step == LoopStep(e) || step == LoopAbort(e) {
    } else {
      LoopKept(s, step, e);
      if !TaskToCome(s) {
        NoneComes(s, step);
      }
    }
  }

  lemma {:induction false} NeverStartsOverRuns(s: System, steps: seq<Step>, e: nat)
    requires Inv(s) && NoServer(s) && e < |s.loops| && !MayStart(s, e) && ServeNotifier !in steps
    ensures var t := RunFrom(s, steps); NoServer(t) && e < |t.loops| && !MayStart(t, e)
  {
    if steps == [] {
    } else {
      var last := |steps| - 1;
      NeverStartsOverRuns(s, steps[..last], e);
      RunInv(s, steps[..last]);
      NeverStarts(RunFrom(s, steps[..last]), steps[last], e);
    }
  }

  /** From such a phase, the steps up to the start of a handler. */
  lemma StepsToStart(s: System, e: nat) returns (steps: seq<Step>)
    requires Inv(s) && e < |s.loops| && MayStart(s, e)
    ensures ServeNotifier !in steps && e < |RunFrom(s, steps).loops| && RunFrom(s, steps).loops[e].Spawning?
  {
    if s.loops[e].Spawning? {
      steps := [];
    } else if NextTask(s.rust).Some? {
      OneStep(s, LoopStep(e));
      steps := [LoopStep(e)];
    } else {
      var r :| 0 <= r < |s.phases| && s.phases[r] == Sending(s.rust.rx.value);
      OneStep(s, SendTask(r));
      OneStep(Next(s, SendTask(r)), LoopStep(e));
      RunConcat(s, [SendTask(r)], [LoopStep(e)]);
      steps := [SendTask(r)] + [LoopStep(e)];
    }
  }

  /** After a stop has returned, and until serve is called again, a loop can still start a handler
      exactly when it has already taken a task, or is past its running check while a task waits or
      a connection still holds a sender. */
  lemma LateStartExactly(s: System, e: nat)
    requires Reachable(s) && s.control.Idle? && s.current == None && e < |s.loops|
    ensures (exists steps :: ServeNotifier !in steps && StartsHandler(RunFrom(s, steps), e)) <==> MayStart(s, e)
  {
    ReachableInv(s);
    ReachableFree(s);
    if MayStart(s, e) {
      var steps := StepsToStart(s, e);
      RunKeepsFree(s, steps);
      RunInv(s, steps);
      StartsExactly(RunFrom(s, steps), e);
    } else {
      forall steps | ServeNotifier !in steps ensures !StartsHandler(RunFrom(s, steps), e) {
        NeverStartsOverRuns(s, steps, e);
        RunKeepsFree(s, steps);
        RunInv(s, steps);
        StartsExactly(RunFrom(s, steps), e);
      }
    }
  }

  const MEANWHILE := [Arrive, CloneSender(0), LoopStep(0), LoopStep(0)]

  const POLLING := UP.(loops := [Polling], phases := [Sending(0)], gens := [None])

  lemma LoopStartsPolling()
    ensures RunFrom(UP, MEANWHILE) == POLLING
  {
    FourSteps(UP, Arrive, CloneSender(0), LoopStep(0), LoopStep(0));
  }

  lemma StopOvertakes()
    ensures var s := RunFrom(POLLING, DOWN); s.control.Idle? && s.current == None && |s.loops| == 1 && MayStart(s, 0)
  {
    FourSteps(POLLING, StopBegin, StopRust, StopWake, StopDone);
    assert RunFrom(POLLING, DOWN).phases[0] == Sending(0);
  }

  /** Such a state is reached: a connection and the loop are under way when the stop overtakes them. */
  lemma LateStartHappens()
    ensures exists s :: Reachable(s) && s.control.Idle? && s.current == None && |s.loops| == 1 && MayStart(s, 0)
  {
    FirstServe();
    LoopStartsPolling();
    StopOvertakes();
    RunConcat(INITIAL, RESTART, MEANWHILE);
    RunConcat(INITIAL, RESTART + MEANWHILE, DOWN);
    assert Reachable(RunFrom(INITIAL, RESTART + MEANWHILE + DOWN));
  }
}
