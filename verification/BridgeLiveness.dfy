/** Progress of the poll loops, over every schedule, and what a restart does to a loop that is still
    on its way out. */
module BridgeLiveness {
  import opened Basics
  import opened TaskBridge
  import opened BridgeSystem
  import opened BridgeTheorems
  import BridgeProofs

  function Occurrences(step: Step, steps: seq<Step>): nat {
    if steps == [] then 0
    else Occurrences(step, steps[..|steps| - 1]) + if steps[|steps| - 1] == step then 1 else 0
  }

  // ----- starting and stopping

  /** A serve that was let through never finds the Rust side running already. */
  lemma ServeIsNeverRefused(s: System)
    requires Reachable(s) && s.control.Serving2?
    ensures !s.rust.shutdown && Next(s, ServeStart).control == Serving3
  {
    ReachableInv(s);
  }

  lemma {:induction false} BusyNone(handlers: seq<HandlerPhase>, h: nat)
    requires Busy(handlers) == 0 && h < |handlers|
    ensures handlers[h].Pending? || handlers[h].Done?
  {
    if h == |handlers| - 1 {
    } else {
      BusyNone(handlers[..|handlers| - 1], h);
    }
  }

  lemma {:induction false} BusySome(handlers: seq<HandlerPhase>)
    requires Busy(handlers) > 0
    ensures exists h :: 0 <= h < |handlers| && !handlers[h].Pending? && !handlers[h].Done?
  {
    if Weight(handlers[|handlers| - 1]) > 0 {
    } else {
      BusySome(handlers[..|handlers| - 1]);
      var h :| 0 <= h < |handlers| - 1 && !handlers[..|handlers| - 1][h].Pending? && !handlers[..|handlers| - 1][h].Done?;
      assert !handlers[h].Pending? && !handlers[h].Done?;
    }
  }

  /** A stop returns exactly when no handler that was started is still at work. */
  lemma StopWaitsForHandlers(s: System)
    requires Reachable(s) && s.control.Stopping3?
    ensures Next(s, StopDone).control.Idle?
            <==> forall h :: 0 <= h < |s.handlers| ==> s.handlers[h].Pending? || s.handlers[h].Done?
  {
    ReachableInv(s);
    if s.inflight == 0 {
      forall h | 0 <= h < |s.handlers| ensures s.handlers[h].Pending? || s.handlers[h].Done? {
        BusyNone(s.handlers, h);
      }
    } else {
      BusySome(s.handlers);
    }
  }

  // ----- a stopped loop exits

  /** The server is stopped, and the stop has issued its wake. */
  predicate Stopped(s: System) {
    !s.running && (s.current == None || s.control.Stopping3?)
  }

  /** How many steps of its own a stopped loop is from its end. */
  function StepsToExit(p: LoopPhase): nat {
    match p
    case Polling => 5
    case Spawning(_) => 4
    case Draining => 3
    case Drained => 2
    case Parked => 2
    case Checking => 1
    case _ => 0
  }

  /** Loop e is the last one started, has been told to stop, and is at most k of its steps from its end. */
  predicate Ending(s: System, e: nat, k: nat) {
    Stopped(s) && e == Latest(s) && e < |s.loops| && !s.loops[e].NotStarted? && StepsToExit(s.loops[e]) <= k
  }

  function Minus(k: nat, n: nat): nat {
    if k < n then 0 else k - n
  }

  /** Only its own steps, its abortion, and the end of its own serve change the phase of a loop. */
  lemma LoopKept(s: System, step: Step, e: nat)
    requires e < |s.loops| && step != LoopStep(e) && step != LoopAbort(e)
    requires step.ServeBound? && s.control.Serving3? ==> s.current != Some(e)
    ensures e < |Next(s, step).loops| && Next(s, step).loops[e] == s.loops[e]
  {
  }

  lemma StaysStopped(s: System, step: Step)
    requires ShapeOk(s) && Stopped(s) && step != ServeNotifier
    ensures Stopped(Next(s, step)) && Latest(Next(s, step)) == Latest(s)
  {
    if !BridgeProofs.OfCaller(step) {
      OnlyCallerControls(s, step);
    }
  }

  lemma OnlyCallerControls(s: System, step: Step)
    requires !BridgeProofs.OfCaller(step)
    ensures var t := Next(s, step);
            t.running == s.running && t.current == s.current && t.control == s.control && |t.conds| == |s.conds|
  {
  }

  lemma LoopNears(s: System, e: nat, k: nat)
    requires ShapeOk(s) && StopOk(s) && Ending(s, e, k)
    ensures e < |LoopOf(s, e).loops| && !LoopOf(s, e).loops[e].NotStarted?
    ensures StepsToExit(LoopOf(s, e).loops[e]) <= Minus(k, 1)
  {
  }

  lemma ExitNears(s: System, step: Step, e: nat, k: nat)
    requires ShapeOk(s) && StopOk(s) && Ending(s, e, k) && step != ServeNotifier
    ensures Ending(Next(s, step), e, if step == LoopStep(e) then Minus(k, 1) else k)
  {
    StaysStopped(s, step);
    if step == LoopStep(e) {
      LoopNears(s, e, k);
    } else if step != LoopAbort(e) {
      LoopKept(s, step, e);
    }
  }

  lemma {:induction false} ExitNearsOverRuns(s: System, steps: seq<Step>, e: nat, k: nat)
    requires Inv(s) && Ending(s, e, k) && ServeNotifier !in steps
    ensures Ending(RunFrom(s, steps), e, Minus(k, Occurrences(LoopStep(e), steps)))
  {
    if steps == [] {
    } else {
      var last := |steps| - 1;
      ExitNearsOverRuns(s, steps[..last], e, k);
      RunInv(s, steps[..last]);
      ExitNears(RunFrom(s, steps[..last]), steps[last], e, Minus(k, Occurrences(LoopStep(e), steps[..last])));
    }
  }

  /** Once a stop has issued its wake, the loop of the last serve has ended after five steps of its own,
      however they are interleaved with the steps of everything else, as long as serve is not called
      again. */
  lemma StoppedLoopExits(s: System, steps: seq<Step>)
    requires Reachable(s) && Stopped(s) && ServeNotifier !in steps
    requires 0 <= Latest(s) < |s.loops| && !s.loops[Latest(s)].NotStarted?
    requires Occurrences(LoopStep(Latest(s)), steps) >= 5
    ensures Latest(s) < |RunFrom(s, steps).loops| && RunFrom(s, steps).loops[Latest(s)] == Exited
  {
    ReachableInv(s);
    ExitNearsOverRuns(s, steps, Latest(s), 5);
    Ended(RunFrom(s, steps), Latest(s));
  }

  lemma Ended(s: System, e: nat)
    requires Ending(s, e, 0)
    ensures s.loops[e] == Exited
  {
  }

  // ----- a queued task is taken

  /** The server is up, with its loop under way. */
  predicate Up(s: System, e: nat) {
    s.running && s.control.Idle? && s.current == Some(e) && e < |s.loops| && e < |s.conds|
    && !s.loops[e].NotStarted? && !s.loops[e].Exited?
  }

  /** The loop will poll without another wake. */
  predicate Awake(s: System, e: nat)
    requires Up(s, e)
  {
    s.conds[e] || (!s.loops[e].Parked? && !s.loops[e].Drained?)
  }

  function StepsToPoll(p: LoopPhase): nat {
    match p
    case Drained => 5
    case Parked => 4
    case Checking => 3
    case Spawning(_) => 3
    case Draining => 2
    case Polling => 1
    case _ => 0
  }

  /** What waits in the channel that is polled. */
  function Queue(rust: Rust): seq<nat> {
    if rust.rx.Some? && rust.rx.value < |rust.channels| then rust.channels[rust.rx.value].queue else []
  }

  /** Task r waits, and no more than p tasks wait before it. */
  predicate Within(rust: Rust, r: nat, p: nat) {
    exists i :: 0 <= i < |Queue(rust)| && Queue(rust)[i] == r && i <= p
  }

  /** Task r waits, and loop e will have polled it within k of its own steps: each task before it
      takes three. */
  predicate Coming(s: System, e: nat, r: nat, k: nat) {
    Up(s, e) && Awake(s, e)
    && exists i :: 0 <= i < |Queue(s.rust)| && Queue(s.rust)[i] == r && StepsToPoll(s.loops[e]) + 3 * i <= k
  }

  lemma StaysUp(s: System, step: Step, e: nat)
    requires ShapeOk(s) && Up(s, e) && step != StopBegin && !step.LoopStep? && step != LoopAbort(e)
    ensures Up(Next(s, step), e) && Next(s, step).loops[e] == s.loops[e] && (s.conds[e] ==> Next(s, step).conds[e])
  {
    LoopKept(s, step, e);
  }

  /** Only loops take from the queue. */
  lemma QueueStays(s: System, step: Step, e: nat)
    requires ShapeOk(s) && Up(s, e) && !step.LoopStep? && step != StopBegin
    ensures Queue(s.rust) <= Queue(Next(s, step).rust)
  {
  }

  /** A loop takes the head of the queue, if anything. */
  predicate TakesHead(s: System, t: System) {
    Queue(s.rust) != [] && Queue(t.rust) == Queue(s.rust)[1..] && t.rust.handles == s.rust.handles + [Queue(s.rust)[0]]
  }

  lemma TakenOrNearer(s: System, t: System, i: nat)
    requires TakesHead(s, t) && i < |Queue(s.rust)|
    ensures if i == 0 then Queue(s.rust)[i] in t.rust.handles
            else i - 1 < |Queue(t.rust)| && Queue(t.rust)[i - 1] == Queue(s.rust)[i]
  {
    if i == 0 {
      assert t.rust.handles[|s.rust.handles|] == Queue(s.rust)[0];
    }
  }

  /** What a step of a loop does to loop e itself. */
  lemma LoopAdvances(s: System, e: nat, e': nat)
    requires Up(s, e) && Awake(s, e) && Queue(s.rust) != []
    ensures var t := LoopOf(s, e');
            Up(t, e) && Awake(t, e)
            && StepsToPoll(t.loops[e]) <= (if e' != e then StepsToPoll(s.loops[e])
                                           else if s.loops[e].Polling? then 3 else StepsToPoll(s.loops[e]) - 1)
  {
  }

  lemma LoopNearer(s: System, e: nat, e': nat, r: nat, k: nat)
    requires Coming(s, e, r, k)
    ensures e' == e ==> k > 0
    ensures Coming(LoopOf(s, e'), e, r, if e' == e then Minus(k, 1) else k) || r in LoopOf(s, e').rust.handles
  {
    var i :| 0 <= i < |Queue(s.rust)| && Queue(s.rust)[i] == r && StepsToPoll(s.loops[e]) + 3 * i <= k;
    var t := LoopOf(s, e');
    LoopAdvances(s, e, e');
    if TakesHead(s, t) {
      TakenOrNearer(s, t, i);
    } else {
      assert Queue(t.rust)[i] == r;
    }
  }

  lemma PollNears(s: System, step: Step, e: nat, r: nat, k: nat)
    requires ShapeOk(s) && Coming(s, e, r, k) && step != StopBegin && step != LoopAbort(e)
    ensures Coming(Next(s, step), e, r, if step == LoopStep(e) then Minus(k, 1) else k) || r in Next(s, step).rust.handles
  {
    if step.LoopStep? {
      LoopNearer(s, e, step.e, r, k);
    } else {
      var i :| 0 <= i < |Queue(s.rust)| && Queue(s.rust)[i] == r && StepsToPoll(s.loops[e]) + 3 * i <= k;
      StaysUp(s, step, e);
      QueueStays(s, step, e);
      assert Queue(Next(s, step).rust)[i] == r;
    }
  }

  lemma {:induction false} PollNearsOverRuns(s: System, steps: seq<Step>, e: nat, r: nat, k: nat)
    requires Inv(s) && Coming(s, e, r, k) && StopBegin !in steps && LoopAbort(e) !in steps
    ensures var t := RunFrom(s, steps);
            Coming(t, e, r, Minus(k, Occurrences(LoopStep(e), steps))) || r in t.rust.handles
  {
    if steps == [] {
    } else {
      var last := |steps| - 1;
      var m := RunFrom(s, steps[..last]);
      PollNearsOverRuns(s, steps[..last], e, r, k);
      RunInv(s, steps[..last]);
      if r in m.rust.handles {
        StepGrows(m, steps[last]);
      } else {
        PollNears(m, steps[last], e, r, Minus(k, Occurrences(LoopStep(e), steps[..last])));
      }
    }
  }

  lemma ComingIsPolled(s: System, c: seq<Step>, e: nat, r: nat, k: nat)
    requires Inv(s) && Coming(s, e, r, k)
    requires StopBegin !in c && LoopAbort(e) !in c && Occurrences(LoopStep(e), c) >= k
    ensures r in RunFrom(s, c).rust.handles
  {
    PollNearsOverRuns(s, c, e, r, k);
  }

  /** While the server stays up and its loop is awake, a task with p others before it is polled
      within 5 + 3p steps of the loop, whatever the other parts do in between. */
  lemma WaitingTaskIsPolled(s: System, steps: seq<Step>, e: nat, r: nat, p: nat)
    requires Reachable(s) && Up(s, e) && Awake(s, e) && p < |Queue(s.rust)| && Queue(s.rust)[p] == r
    requires StopBegin !in steps && LoopAbort(e) !in steps && Occurrences(LoopStep(e), steps) >= 5 + 3 * p
    ensures r in RunFrom(s, steps).rust.handles
  {
    ReachableInv(s);
    ComingIsPolled(s, steps, e, r, 5 + 3 * p);
  }

  /** Task r waits in channel g behind at most p others, and connection i is about to wake loop e. */
  predicate WakeComing(s: System, e: nat, g: nat, i: nat, r: nat, p: nat) {
    Up(s, e) && s.rust.rx == Some(g) && Within(s.rust, r, p) && i < |s.phases| && WillFire(s.phases[i], g, e)
  }

  /** The step with which connection i goes on. */
  function OwnStep(p: Phase, i: nat): Step {
    if p.Sent? then LoadNotifier(i) else Fire(i)
  }

  lemma PhaseKept(s: System, step: Step, i: nat)
    requires i < |s.phases| && (s.phases[i].Sent? || s.phases[i].Loaded?) && step != OwnStep(s.phases[i], i)
    ensures i < |Next(s, step).phases| && Next(s, step).phases[i] == s.phases[i]
  {
  }

  lemma LoopStaysUp(s: System, e: nat, e': nat)
    requires ShapeOk(s) && Up(s, e)
    ensures Up(LoopOf(s, e'), e)
  {
  }

  lemma ReceiverStays(s: System, step: Step, e: nat)
    requires Up(s, e)
    ensures Next(s, step).rust.rx == s.rust.rx
  {
  }

  lemma StaysWithin(s: System, step: Step, e: nat, r: nat, p: nat)
    requires ShapeOk(s) && Up(s, e) && Within(s.rust, r, p) && step != StopBegin
    ensures Within(Next(s, step).rust, r, p) || r in Next(s, step).rust.handles
  {
    var i :| 0 <= i < |Queue(s.rust)| && Queue(s.rust)[i] == r && i <= p;
    var t := Next(s, step);
    if step.LoopStep? {
      if TakesHead(s, t) {
        TakenOrNearer(s, t, i);
      }
    } else {
      QueueStays(s, step, e);
      assert Queue(t.rust)[i] == r;
    }
  }

  lemma WakeStays(s: System, step: Step, e: nat, g: nat, i: nat, r: nat, p: nat)
    requires ShapeOk(s) && WakeComing(s, e, g, i, r, p) && step != StopBegin && step != LoopAbort(e)
    requires step != OwnStep(s.phases[i], i)
    ensures r in Next(s, step).rust.handles
            || (WakeComing(Next(s, step), e, g, i, r, p) && Next(s, step).phases[i] == s.phases[i])
  {
    PhaseKept(s, step, i);
    ReceiverStays(s, step, e);
    StaysWithin(s, step, e, r, p);
    if step.LoopStep? {
      LoopStaysUp(s, e, step.e);
    } else {
      StaysUp(s, step, e);
    }
  }

  lemma {:induction false} WakeStaysOverRuns(s: System, steps: seq<Step>, e: nat, g: nat, i: nat, r: nat, p: nat)
    requires Inv(s) && WakeComing(s, e, g, i, r, p) && StopBegin !in steps && LoopAbort(e) !in steps
    requires OwnStep(s.phases[i], i) !in steps
    ensures var t := RunFrom(s, steps);
            r in t.rust.handles || (WakeComing(t, e, g, i, r, p) && t.phases[i] == s.phases[i])
  {
    if steps == [] {
    } else {
      var last := |steps| - 1;
      var m := RunFrom(s, steps[..last]);
      WakeStaysOverRuns(s, steps[..last], e, g, i, r, p);
      RunInv(s, steps[..last]);
      if r in m.rust.handles {
        StepGrows(m, steps[last]);
      } else {
        WakeStays(m, steps[last], e, g, i, r, p);
      }
    }
  }

  lemma LoadsTheLoop(s: System, e: nat, g: nat, i: nat, r: nat, p: nat)
    requires ShapeOk(s) && WakeComing(s, e, g, i, r, p) && s.phases[i].Sent?
    ensures WakeComing(Next(s, LoadNotifier(i)), e, g, i, r, p) && Next(s, LoadNotifier(i)).phases[i].Loaded?
  {
  }

  lemma FiresTheLoop(s: System, e: nat, g: nat, i: nat, r: nat, p: nat)
    requires WakeComing(s, e, g, i, r, p) && s.phases[i].Loaded?
    ensures Coming(RunFrom(s, [Fire(i)]), e, r, 5 + 3 * p)
  {
    OneStep(s, Fire(i));
    var j :| 0 <= j < |Queue(s.rust)| && Queue(s.rust)[j] == r && j <= p;
    assert Queue(Next(s, Fire(i)).rust)[j] == r;
  }

  lemma FiredIsPolled(s: System, c: seq<Step>, e: nat, g: nat, i: nat, r: nat, p: nat)
    requires Inv(s) && WakeComing(s, e, g, i, r, p) && s.phases[i].Loaded?
    requires StopBegin !in c && LoopAbort(e) !in c && Occurrences(LoopStep(e), c) >= 5 + 3 * p
    ensures r in RunFrom(RunFrom(s, [Fire(i)]), c).rust.handles
  {
    RunInv(s, [Fire(i)]);
    FiresTheLoop(s, e, g, i, r, p);
    ComingIsPolled(RunFrom(s, [Fire(i)]), c, e, r, 5 + 3 * p);
  }

  /** From the load of the notifier on: the fire wakes the loop, and the task is polled. */
  lemma LoadedWakeIsPolled(s: System, b: seq<Step>, c: seq<Step>, e: nat, g: nat, i: nat, r: nat, p: nat)
    requires Inv(s) && WakeComing(s, e, g, i, r, p) && s.phases[i].Loaded?
    requires StopBegin !in b && LoopAbort(e) !in b && Fire(i) !in b
    requires StopBegin !in c && LoopAbort(e) !in c && Occurrences(LoopStep(e), c) >= 5 + 3 * p
    ensures r in RunFrom(RunFrom(RunFrom(s, b), [Fire(i)]), c).rust.handles
  {
    var m := RunFrom(s, b);
    RunInv(s, b);
    WakeStaysOverRuns(s, b, e, g, i, r, p);
    if r in m.rust.handles {
      StillHandled(m, [Fire(i)], r);
      StillHandled(RunFrom(m, [Fire(i)]), c, r);
    } else {
      FiredIsPolled(m, c, e, g, i, r, p);
    }
  }

  lemma OneStep(s: System, step: Step)
    ensures RunFrom(s, [step]) == Next(s, step)
  {
    assert [step][..0] == [];
  }

  /** A task that waits behind at most p others, while connection i has sent through the same channel
      and not yet fired, is polled after i has loaded the notifier and fired, and the loop has taken
      5 + 3p more steps: under every schedule that keeps the server up, and whether or not the loop
      was waiting. */
  lemma SentTaskIsPolled(s: System, a: seq<Step>, b: seq<Step>, c: seq<Step>, e: nat, g: nat, i: nat, r: nat, p: nat)
    requires Reachable(s) && WakeComing(s, e, g, i, r, p) && s.phases[i].Sent?
    requires StopBegin !in a && LoopAbort(e) !in a && LoadNotifier(i) !in a
    requires StopBegin !in b && LoopAbort(e) !in b && Fire(i) !in b
    requires StopBegin !in c && LoopAbort(e) !in c && Occurrences(LoopStep(e), c) >= 5 + 3 * p
    ensures r in RunFrom(s, a + [LoadNotifier(i)] + b + [Fire(i)] + c).rust.handles
  {
    ReachableInv(s);
    var m := RunFrom(s, a);
    var n := RunFrom(m, [LoadNotifier(i)]);
    RunConcat(s, a + [LoadNotifier(i)] + b + [Fire(i)], c);
    RunConcat(s, a + [LoadNotifier(i)] + b, [Fire(i)]);
    RunConcat(s, a + [LoadNotifier(i)], b);
    RunConcat(s, a, [LoadNotifier(i)]);
    RunInv(s, a);
    RunInv(m, [LoadNotifier(i)]);
    WakeStaysOverRuns(s, a, e, g, i, r, p);
    OneStep(m, LoadNotifier(i));
    if r in m.rust.handles {
      StillHandled(m, [LoadNotifier(i)], r);
      StillHandled(n, b, r);
      StillHandled(RunFrom(n, b), [Fire(i)], r);
      StillHandled(RunFrom(RunFrom(n, b), [Fire(i)]), c, r);
    } else {
      LoadsTheLoop(m, e, g, i, r, p);
      LoadedWakeIsPolled(n, b, c, e, g, i, r, p);
    }
  }

  /** So every task that was sent is polled, on a server that stays up: once its own connection has
      loaded the notifier and fired, 194 steps of the loop are always enough. */
  lemma EverySentTaskIsPolled(s: System, a: seq<Step>, b: seq<Step>, c: seq<Step>, e: nat, r: nat)
    requires Reachable(s) && Up(s, e) && r < |s.phases| && s.phases[r].Sent? && s.rust.rx == Some(s.phases[r].channel)
    requires StopBegin !in a && LoopAbort(e) !in a && LoadNotifier(r) !in a
    requires StopBegin !in b && LoopAbort(e) !in b && Fire(r) !in b
    requires StopBegin !in c && LoopAbort(e) !in c && Occurrences(LoopStep(e), c) >= 194
    ensures r in RunFrom(s, a + [LoadNotifier(r)] + b + [Fire(r)] + c).rust.handles
  {
    SentIsQueued(s, r);
    if r in s.rust.handles {
      ReachableInv(s);
      StillHandled(s, a + [LoadNotifier(r)] + b + [Fire(r)] + c, r);
    } else {
      SentTaskIsPolled(s, a, b, c, e, s.phases[r].channel, r, r, CAPACITY - 1);
    }
  }

  /** A task sent through the live channel waits in it or has been polled. */
  lemma SentIsQueued(s: System, r: nat)
    requires Reachable(s) && r < |s.phases| && s.phases[r].Sent? && s.rust.rx == Some(s.phases[r].channel)
    ensures Within(s.rust, r, CAPACITY - 1) || r in s.rust.handles
  {
    ReachableInv(s);
    assert PhaseOk(s, r);
    LiveChannel(s);
    var ch := s.rust.channels[s.phases[r].channel];
    assert r in ch.sent;
    if r in ch.polled {
      assert AllHandled(ch.polled, s.rust.handles);
    } else {
      assert r in ch.queue;
      assert Queue(s.rust) == ch.queue;
    }
  }

  lemma StillHandled(s: System, steps: seq<Step>, r: nat)
    requires Inv(s) && r in s.rust.handles
    ensures Inv(RunFrom(s, steps)) && r in RunFrom(s, steps).rust.handles
  {
    RunInv(s, steps);
    RunGrows(s, steps);
  }

  /** While the server is up, its loop is under way or woken, or nothing waits, or such a sender exists. */
  lemma AwakeOrWakeComing(s: System, e: nat)
    requires Reachable(s) && Up(s, e) && Queue(s.rust) != []
    ensures Awake(s, e) || exists i: nat :: WakeComing(s, e, s.rust.rx.value, i, Queue(s.rust)[0], 0)
  {
    ReachableInv(s);
    if !Awake(s, e) {
      var g := s.rust.rx.value;
      assert WakePending(s, g, e);
      var i :| 0 <= i < |s.phases| && WillFire(s.phases[i], g, e);
      assert Within(s.rust, Queue(s.rust)[0], 0);
      assert WakeComing(s, e, g, i, Queue(s.rust)[0], 0);
    }
  }
}
