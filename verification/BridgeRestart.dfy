/** What a second serve does to the loop of the first: a loop that has been stopped but has not ended
    sees the server running again, and waits for a wake that nobody will send. */
module BridgeRestart {
  import opened Basics
  import opened TaskBridge
  import opened BridgeSystem
  import opened BridgeTheorems
  import opened BridgeLiveness

  /** No connection task below k is about to fire condition e. */
  predicate Untargeted(s: System, e: nat, k: nat) {
    forall r :: 0 <= r < |s.phases| && r < k && s.phases[r].Loaded? ==> s.phases[r].target != Some(e)
  }

  /** Loop e waits, and nothing there is will set its flag. */
  predicate Stranded(s: System, e: nat) {
    && e < |s.loops| && e < |s.conds| && s.loops[e].Parked? && !s.conds[e]
    && s.current != Some(e) && s.rust.notifier != Some(e) && Untargeted(s, e, |s.phases|)
  }

  lemma StrandedConnection(s: System, r: nat, step: Step, e: nat)
    requires Stranded(s, e)
    ensures Stranded(ConnectionStep(s, r, step), e)
  {
  }

  lemma StrandedControl(s: System, step: Step, e: nat)
    requires Stranded(s, e)
    ensures Stranded(ControlStep(s, step), e)
  {
  }

  lemma StrandedLoop(s: System, e: nat, e': nat)
    requires Stranded(s, e)
    ensures Stranded(LoopOf(s, e'), e)
  {
  }

  lemma StrandedStep(s: System, step: Step, e: nat)
    requires Stranded(s, e) && step != LoopAbort(e)
    ensures Stranded(Next(s, step), e)
  {
    match step
    case CloneSender(r) => StrandedConnection(s, r, step, e);
    case SendTask(r) => StrandedConnection(s, r, step, e);
    case LoadNotifier(r) => StrandedConnection(s, r, step, e);
    case Fire(r) => StrandedConnection(s, r, step, e);
    case Receive(r) => StrandedConnection(s, r, step, e);
    case Cancel(r) => StrandedConnection(s, r, step, e);
    case LoopStep(e') => StrandedLoop(s, e, e');
    case Arrive =>
    case LoopAbort(_) =>
    case Complete(_, _) =>
    case LoseReply(_) =>
    case Finish(_) =>
    case _ => StrandedControl(s, step, e);
  }

  /** Nothing but an interrupt ends the wait of a stranded loop. */
  lemma {:induction false} StrandedForever(s: System, steps: seq<Step>, e: nat)
    requires Stranded(s, e) && LoopAbort(e) !in steps
    ensures Stranded(RunFrom(s, steps), e)
  {
    if steps == [] {
    } else {
      var last := |steps| - 1;
      StrandedForever(s, steps[..last], e);
      StrandedStep(RunFrom(s, steps[..last]), steps[last], e);
    }
  }

  lemma ExitedStep(s: System, step: Step, e: nat)
    requires ShapeOk(s) && e < |s.loops| && s.loops[e].Exited?
    ensures e < |Next(s, step).loops| && Next(s, step).loops[e].Exited?
  {
    if step != LoopStep(e) && step != LoopAbort(e) {
      LoopKept(s, step, e);
    }
  }

  lemma {:induction false} ExitedForever(s: System, steps: seq<Step>, e: nat)
    requires Inv(s) && e < |s.loops| && s.loops[e].Exited?
    ensures e < |RunFrom(s, steps).loops| && RunFrom(s, steps).loops[e].Exited?
  {
    if steps == [] {
    } else {
      var last := |steps| - 1;
      ExitedForever(s, steps[..last], e);
      RunInv(s, steps[..last]);
      ExitedStep(RunFrom(s, steps[..last]), steps[last], e);
    }
  }

  /** The last serve has been stopped, and stop_server! has returned. */
  predicate StopReturned(s: System, e: nat) {
    s.control.Idle? && s.current == None && e == Latest(s) && e < |s.loops| && !s.loops[e].NotStarted?
  }

  /** The connection tasks about to fire condition e all do so. */
  lemma {:induction false} FireAll(s: System, e: nat, k: nat) returns (steps: seq<Step>)
    requires k <= |s.phases| && StopReturned(s, e)
    ensures forall step :: step in steps ==> step.Fire?
    ensures var t := RunFrom(s, steps);
            StopReturned(t, e) && |t.phases| == |s.phases| && t.loops == s.loops && Untargeted(t, e, k)
  {
    if k == 0 {
      steps := [];
    } else {
      steps := FireAll(s, e, k - 1);
      var t := RunFrom(s, steps);
      if t.phases[k - 1].Loaded? {
        RunConcat(s, steps, [Fire(k - 1)]);
        OneStep(t, Fire(k - 1));
        steps := steps + [Fire(k - 1)];
      }
    }
  }

  /** The server runs for another loop, nothing waits, and nothing is about to wake loop e. */
  predicate Superseded(s: System, e: nat) {
    && s.running && NextTask(s.rust) == None && e < |s.loops| && e < |s.conds|
    && !s.loops[e].NotStarted? && !s.loops[e].Exited?
    && s.current != Some(e) && s.rust.notifier != Some(e) && Untargeted(s, e, |s.phases|)
  }

  const RESTART := [ServeNotifier, ServeRun, ServeStart, ServeBound(true)]

  lemma FourSteps(s: System, a: Step, b: Step, c: Step, d: Step)
    ensures RunFrom(s, [a, b, c, d]) == Next(Next(Next(Next(s, a), b), c), d)
  {
    var run := [a, b, c, d];
    assert run[..3] == [a, b, c] && run[..3][..2] == [a, b] && run[..3][..2][..1] == [a];
    OneStep(s, a);
    assert RunFrom(s, [a, b]) == Next(Next(s, a), b) by { assert [a, b][..1] == [a]; }
    assert RunFrom(s, [a, b, c]) == Next(Next(Next(s, a), b), c) by { assert [a, b, c][..2] == [a, b]; }
  }

  lemma RestartRun(s: System)
    ensures RunFrom(s, RESTART) == Next(Next(Next(Next(s, ServeNotifier), ServeRun), ServeStart), ServeBound(true))
  {
    FourSteps(s, ServeNotifier, ServeRun, ServeStart, ServeBound(true));
  }

  lemma Restarts(s: System, e: nat)
    requires Inv(s) && StopReturned(s, e) && !s.loops[e].Exited? && Untargeted(s, e, |s.phases|)
    ensures Superseded(RunFrom(s, RESTART), e)
  {
    RestartRun(s);
    ServePrepares(s);
    ServeStarts(Prepared(s));
  }

  /** The state in which serve starts the Rust side. */
  function Prepared(s: System): System {
    s.(conds := s.conds + [false], loops := s.loops + [NotStarted], current := Some(|s.conds|),
       rust := s.rust.(notifier := Some(|s.conds|)), running := true, control := Serving2)
  }

  lemma ServePrepares(s: System)
    requires s.control.Idle? && !s.running
    ensures Next(Next(s, ServeNotifier), ServeRun) == Prepared(s)
  {
  }

  /** Starting and binding change nothing but the channel and the new loop. */
  lemma ServeStarts(s: System)
    requires s.control.Serving2? && !s.rust.shutdown && s.current.Some? && s.current.value < |s.loops|
    ensures var t := Next(Next(s, ServeStart), ServeBound(true));
            && t.running == s.running && t.conds == s.conds && t.phases == s.phases && t.current == s.current
            && t.rust.notifier == s.rust.notifier && t.loops == s.loops[s.current.value := Checking]
            && NextTask(t.rust) == None
  {
  }

  function StepsToPark(p: LoopPhase): nat {
    match p
    case Spawning(_) => 4
    case Checking => 4
    case Draining => 3
    case Polling => 2
    case Drained => 1
    case _ => 0
  }

  function Distance(s: System, e: nat): nat
    requires e < |s.loops| && e < |s.conds|
  {
    StepsToPark(s.loops[e]) + if s.conds[e] then 5 else 0
  }

  lemma {:induction false} LoopParks(s: System, e: nat) returns (steps: seq<Step>)
    requires Superseded(s, e)
    ensures forall step :: step in steps ==> step == LoopStep(e)
    ensures Stranded(RunFrom(s, steps), e)
    decreases Distance(s, e)
  {
    if s.loops[e].Parked? && !s.conds[e] {
      steps := [];
    } else {
      var rest := LoopParks(LoopOf(s, e), e);
      steps := [LoopStep(e)] + rest;
      RunConcat(s, [LoopStep(e)], rest);
      OneStep(s, LoopStep(e));
    }
  }

  lemma RestartParks(s: System, e: nat) returns (steps: seq<Step>)
    requires Inv(s) && StopReturned(s, e) && !s.loops[e].Exited? && Untargeted(s, e, |s.phases|)
    ensures LoopAbort(e) !in steps && Stranded(RunFrom(s, steps), e)
  {
    Restarts(s, e);
    var parks := LoopParks(RunFrom(s, RESTART), e);
    RunConcat(s, RESTART, parks);
    steps := RESTART + parks;
  }

  /** A stop that has returned does not mean that the loop has ended: a serve that comes first strands it. */
  lemma RestartStrands(s: System, e: nat) returns (steps: seq<Step>)
    requires Inv(s) && StopReturned(s, e) && !s.loops[e].Exited?
    ensures LoopAbort(e) !in steps && Stranded(RunFrom(s, steps), e)
  {
    var fires := FireAll(s, e, |s.phases|);
    RunInv(s, fires);
    var rest := RestartParks(RunFrom(s, fires), e);
    RunConcat(s, fires, rest);
    steps := fires + rest;
  }

  /** The exact condition under which the loop of a serve can be left waiting for good after its stop
      has returned: exactly when it has not ended by then. */
  lemma StrandableExactly(s: System, e: nat)
    requires Reachable(s) && StopReturned(s, e)
    ensures (exists steps :: LoopAbort(e) !in steps && Stranded(RunFrom(s, steps), e)) <==> !s.loops[e].Exited?
  {
    ReachableInv(s);
    if s.loops[e].Exited? {
      forall steps | LoopAbort(e) !in steps ensures !Stranded(RunFrom(s, steps), e) {
        ExitedForever(s, steps, e);
      }
    } else {
      var steps := RestartStrands(s, e);
    }
  }

  const UP := System(Rust(true, Some(0), Some(0), [NEW_CHANNEL], Some(0), [], map[]),
                     true, Some(0), [false], [Checking], [], 0, Idle, [], [])

  const DOWN := [StopBegin, StopRust, StopWake, StopDone]

  lemma FirstServe()
    ensures RunFrom(INITIAL, RESTART) == UP
  {
    RestartRun(INITIAL);
  }

  lemma FirstStop()
    ensures StopReturned(RunFrom(UP, DOWN), 0) && RunFrom(UP, DOWN).loops[0].Checking?
  {
    FourSteps(UP, StopBegin, StopRust, StopWake, StopDone);
  }

  /** Such a state is reached: the stop outruns the loop that has just started. */
  lemma StopCanReturnFirst()
    ensures exists s :: Reachable(s) && StopReturned(s, 0) && !s.loops[0].Exited?
  {
    FirstServe();
    FirstStop();
    RunConcat(INITIAL, RESTART, DOWN);
    assert Reachable(RunFrom(INITIAL, RESTART + DOWN));
  }
}
