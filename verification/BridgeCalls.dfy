/** What serve and stop_server! do, said on the state they are called in, when nothing comes between
    their steps. */
module BridgeCalls {
  import opened Basics
  import opened TaskBridge
  import opened BridgeSystem
  import opened BridgeTheorems
  import opened BridgeRestart
  import opened BridgeLiveness

  function ServeSteps(bound: bool): seq<Step> {
    [ServeNotifier, ServeRun, ServeStart, ServeBound(bound)]
  }

  const STOP_STEPS := [StopBegin, StopRust, StopWake, StopDone]

  /** A serve whose address can be bound has the server up at its end, with a new condition, flag clear,
      registered and notified, a new loop under way, and a new channel, empty and open; the loops and
      conditions of before are as they were. */
  lemma ServeBringsUp(s: System)
    requires Reachable(s) && s.control.Idle? && !s.running
    ensures var e, t := |s.conds|, RunFrom(s, ServeSteps(true));
            && Up(t, e) && t.rust.notifier == Some(e) && t.conds == s.conds + [false] && t.loops == s.loops + [Checking]
            && t.rust.shutdown && t.rust.tx == t.rust.rx == Some(|s.rust.channels|) && Queue(t.rust) == []
            && t.phases == s.phases && t.handlers == s.handlers
  {
    ReachableInv(s);
    FourSteps(s, ServeNotifier, ServeRun, ServeStart, ServeBound(true));
    ServePrepares(s);
    assert (s.loops + [NotStarted])[|s.loops| := Checking] == s.loops + [Checking];
  }

  /** A serve whose address cannot be bound ends with the server down, and can be called again. */
  lemma ServeFails(s: System)
    requires Reachable(s) && s.control.Idle? && !s.running
    ensures var t := RunFrom(s, ServeSteps(false));
            t.control.Idle? && !t.running && !t.rust.shutdown && t.loops == s.loops + [NotStarted]
  {
    ReachableInv(s);
    FourSteps(s, ServeNotifier, ServeRun, ServeStart, ServeBound(false));
    ServePrepares(s);
  }

  /** A serve called while the server runs changes nothing. */
  lemma ServeRefusedWhileRunning(s: System)
    requires Reachable(s) && s.control.Idle? && s.running
    ensures Next(s, ServeNotifier) == s
  {
  }

  /** A stop can be called whenever no call is under way, also when nothing runs. Up to its wait for the
      handlers it takes down the sender, the notifier and the running flag, leaves the receiver and its
      queue, and sets the flag of the registered condition and no other. It returns at once exactly when
      no started handler is at work, and leaves no condition registered. */
  lemma StopTakesDown(s: System)
    requires Reachable(s) && s.control.Idle?
    ensures var t := RunFrom(s, STOP_STEPS);
            && !t.running && !t.rust.shutdown && t.rust.tx == None && t.rust.notifier == None
            && t.rust.rx == s.rust.rx && t.rust.channels == s.rust.channels && t.rust.handles == s.rust.handles
            && t.loops == s.loops && t.phases == s.phases && t.handlers == s.handlers && |t.conds| == |s.conds|
            && (forall e :: 0 <= e < |s.conds| ==> t.conds[e] == (s.conds[e] || s.current == Some(e)))
            && (if forall h :: 0 <= h < |s.handlers| ==> s.handlers[h].Pending? || s.handlers[h].Done?
                then t.control.Idle? && t.current == None
                else t.control.Stopping3? && t.current == s.current)
  {
    ConditionRegistered(s);
    FourSteps(s, StopBegin, StopRust, StopWake, StopDone);
    var u := Next(Next(Next(s, StopBegin), StopRust), StopWake);
    StopWakes(s);
    WakeReachable(s);
    StopWaitsForHandlers(u);
    assert Next(u, StopDone) == u || Next(u, StopDone) == u.(current := None, control := Idle);
  }

  lemma ConditionRegistered(s: System)
    requires Reachable(s)
    ensures s.current.Some? ==> s.current.value < |s.conds|
  {
    ReachableInv(s);
  }

  lemma StopWakes(s: System)
    requires s.control.Idle? && (s.current.Some? ==> s.current.value < |s.conds|)
    ensures var u := Next(Next(Next(s, StopBegin), StopRust), StopWake);
            && u == s.(running := false, rust := StopServer(s.rust), control := Stopping3, conds := u.conds)
            && u.conds == if s.current.Some? then s.conds[s.current.value := true] else s.conds
  {
  }

  lemma WakeReachable(s: System)
    requires Reachable(s)
    ensures Reachable(Next(Next(Next(s, StopBegin), StopRust), StopWake))
  {
    var earlier :| s == RunFrom(INITIAL, earlier);
    RunConcat(INITIAL, earlier, [StopBegin]);
    OneStep(s, StopBegin);
    RunConcat(INITIAL, earlier + [StopBegin], [StopRust]);
    OneStep(Next(s, StopBegin), StopRust);
    RunConcat(INITIAL, earlier + [StopBegin] + [StopRust], [StopWake]);
    OneStep(Next(Next(s, StopBegin), StopRust), StopWake);
    assert RunFrom(INITIAL, earlier + [StopBegin] + [StopRust] + [StopWake])
        == Next(Next(Next(s, StopBegin), StopRust), StopWake);
  }

  /** An interrupt ends a loop that was started, at any point, and touches nothing else. */
  lemma InterruptEnds(s: System, e: nat)
    requires e < |s.loops| && !s.loops[e].NotStarted?
    ensures Next(s, LoopAbort(e)) == s.(loops := s.loops[e := Exited])
  {
  }
}
