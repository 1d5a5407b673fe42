/** What the bridge is for: a request that is sent is answered, with the reply its handler gave. And
    what each step of a connection task does, said on the states. */
module BridgeReplies {
  import opened Basics
  import opened TaskBridge
  import opened BridgeSystem
  import opened BridgeTheorems
  import opened BridgeLiveness
  import opened BridgeRestart
  import BridgeProofs

  // ----- the steps of a connection task

  /** Nothing but the phase of connection r is different, and it is p. */
  predicate OnlyPhase(s: System, t: System, r: nat, p: Phase) {
    r < |s.phases| && t == s.(phases := t.phases) && t.phases == s.phases[r := p]
  }

  /** A request that arrives takes the sender if there is one, and fails otherwise. */
  lemma SenderTaken(s: System, r: nat)
    requires r < |s.phases| && s.phases[r].Started?
    ensures OnlyPhase(s, Next(s, CloneSender(r)), r, if s.rust.tx.Some? then Sending(s.rust.tx.value) else Failed)
  {
  }

  /** Sending: it fails when the receiver is gone, waits while 64 tasks are queued, and otherwise the
      task is the last of the queue. */
  lemma SentExactly(s: System, r: nat)
    requires Reachable(s) && r < |s.phases| && s.phases[r].Sending?
    ensures var g, t := s.phases[r].channel, Next(s, SendTask(r));
            g < |s.rust.channels|
            && (if s.rust.rx != Some(g) then OnlyPhase(s, t, r, Failed)
                else if |s.rust.channels[g].queue| >= 64 then t == s
                else t.phases == s.phases[r := Phase.Sent(g)] && t.rust.rx == s.rust.rx && Queue(t.rust) == Queue(s.rust) + [r]
                     && t.rust.handles == s.rust.handles && t.conds == s.conds && t.loops == s.loops)
  {
    ReachableInv(s);
    assert PhaseOk(s, r);
  }

  /** The notifier is loaded as it is, and firing it sets the flag of its condition and no other. */
  lemma NotifiedExactly(s: System, r: nat)
    requires Reachable(s) && r < |s.phases|
    ensures s.phases[r].Sent? ==>
              OnlyPhase(s, Next(s, LoadNotifier(r)), r, Loaded(s.phases[r].channel, s.rust.notifier))
    ensures s.phases[r].Loaded? ==>
              var t, target := Next(s, Fire(r)), s.phases[r].target;
              && t.phases == s.phases[r := Awaiting(s.phases[r].channel)] && t.rust == s.rust && t.loops == s.loops
              && |t.conds| == |s.conds|
              && forall e :: 0 <= e < |s.conds| ==> t.conds[e] == (s.conds[e] || target == Some(e))
  {
    ReachableInv(s);
    assert PhaseOk(s, r);
  }

  /** Receiving: the reply if there is one, a failure exactly if the task was dropped with its channel,
      and otherwise the connection goes on waiting. */
  lemma ReceivedExactly(s: System, r: nat)
    requires Reachable(s) && r < |s.phases| && s.phases[r].Awaiting?
    ensures r < |s.gens| && s.gens[r].Some? && s.gens[r].value < |s.rust.channels|
    ensures var t := Next(s, Receive(r));
            && (r in s.rust.replies ==> OnlyPhase(s, t, r, Answered(s.rust.replies[r])))
            && (IsAt(s, r, Dropped) ==> OnlyPhase(s, t, r, Failed))
            && (r !in s.rust.replies && !IsAt(s, r, Dropped) ==> t == s)
            && !(r in s.rust.replies && IsAt(s, r, Dropped))
  {
    ReachableInv(s);
    assert PhaseOk(s, r);
    Conservation(s, r);
  }

  /** A connection is cancelled while it has not sent or while it waits for the reply, and at no other time. */
  lemma CancelledExactly(s: System, r: nat)
    requires r < |s.phases|
    ensures if s.phases[r].Started? || s.phases[r].Sending? || s.phases[r].Awaiting?
            then OnlyPhase(s, Next(s, Cancel(r)), r, Failed)
            else Next(s, Cancel(r)) == s
  {
  }

  // ----- the answer arrives

  /** A reply is there, and its connection waits for it or has it. */
  predicate ReplyReady(s: System, r: nat, reply: Reply) {
    r in s.rust.replies && s.rust.replies[r] == reply && r < |s.phases|
    && (s.phases[r].Awaiting? || s.phases[r] == Answered(reply))
  }

  /** The same, and the connection has it already if done says so. */
  predicate ReplyAt(s: System, r: nat, reply: Reply, done: bool) {
    ReplyReady(s, r, reply) && (done ==> s.phases[r].Answered?)
  }

  lemma ReplyStays(s: System, step: Step, r: nat, reply: Reply, done: bool)
    requires Inv(s) && ReplyAt(s, r, reply, done) && step != Cancel(r)
    ensures ReplyAt(Next(s, step), r, reply, done || step == Receive(r))
  {
    StepGrows(s, step);
    WaitingPhaseKept(s, step, r);
  }

  /** Only receiving and cancelling end the wait, and nothing changes an answer. */
  lemma WaitingPhaseKept(s: System, step: Step, r: nat)
    requires r < |s.phases| && (s.phases[r].Awaiting? || s.phases[r].Answered?) && step != Cancel(r)
    ensures r < |Next(s, step).phases|
    ensures step != Receive(r) || s.phases[r].Answered? ==> Next(s, step).phases[r] == s.phases[r]
    ensures step == Receive(r) && r in s.rust.replies && s.phases[r].Awaiting? ==>
              Next(s, step).phases[r] == Answered(s.rust.replies[r])
  {
  }

  lemma {:induction false} ReplyArrivesOverRuns(s: System, steps: seq<Step>, r: nat, reply: Reply)
    requires Inv(s) && ReplyReady(s, r, reply) && Cancel(r) !in steps
    ensures ReplyAt(RunFrom(s, steps), r, reply, Occurrences(Receive(r), steps) > 0)
  {
    if steps == [] {
    } else {
      var last := |steps| - 1;
      ReplyArrivesOverRuns(s, steps[..last], r, reply);
      RunInv(s, steps[..last]);
      ReplyStays(RunFrom(s, steps[..last]), steps[last], r, reply, Occurrences(Receive(r), steps[..last]) > 0);
    }
  }

  lemma {:induction false} Occurs(step: Step, steps: seq<Step>)
    requires step in steps
    ensures Occurrences(step, steps) > 0
  {
    var last := |steps| - 1;
    if steps[last] == step {
    } else {
      Occurs(step, steps[..last]);
    }
  }

  /** A connection that waits with a reply there has that very reply at the end of every continuation in
      which it receives and is not cancelled. */
  lemma ReplyArrives(s: System, r: nat, steps: seq<Step>)
    requires Reachable(s) && r < |s.phases| && s.phases[r].Awaiting? && r in s.rust.replies
    requires Receive(r) in steps && Cancel(r) !in steps
    ensures r < |RunFrom(s, steps).phases| && RunFrom(s, steps).phases[r] == Answered(s.rust.replies[r])
  {
    ReachableInv(s);
    Occurs(Receive(r), steps);
    ReplyArrivesOverRuns(s, steps, r, s.rust.replies[r]);
  }

  /** And when the running handler of its request replies, whatever the reply is, its connection has
      that reply at the end. */
  lemma HandlerReplyArrives(s: System, r: nat, h: nat, response: Response, steps: seq<Step>)
    requires Reachable(s) && r < |s.phases| && s.phases[r].Awaiting?
    requires HeldAs(s, r, h) && s.handlers[h].Running?
    requires Receive(r) in steps && Cancel(r) !in steps
    ensures var t := RunFrom(Next(s, Complete(h, response)), steps);
            r < |t.phases| && t.phases[r] == Answered(Reply(h, Taken(response)))
  {
    ReachableInv(s);
    BridgeProofs.NextInv(s, Complete(h, response));
    Occurs(Receive(r), steps);
    ReplyArrivesOverRuns(Next(s, Complete(h, response)), steps, r, Reply(h, Taken(response)));
  }

  // ----- a request that is sent

  /** Connection r has failed because its task was dropped. */
  predicate FailedByLoss(s: System, r: nat) {
    r < |s.phases| && s.phases[r].Failed? && LostOne(s, r)
  }

  predicate LostOne(s: System, r: nat) {
    exists g :: 0 <= g < |s.rust.channels| && r in s.rust.channels[g].lost
  }

  predicate Waits(s: System, r: nat) {
    r < |s.phases| && (s.phases[r].Awaiting? || s.phases[r].Answered?)
  }

  lemma ReceiveOrDropped(s: System, step: Step, r: nat)
    requires Waits(s, r) && step != Cancel(r)
    ensures Waits(Next(s, step), r) || FailedByLoss(Next(s, step), r)
  {
    WaitingPhaseKept(s, step, r);
  }

  lemma LostStays(s: System, step: Step, r: nat)
    requires Inv(s) && FailedByLoss(s, r)
    ensures FailedByLoss(Next(s, step), r)
  {
    StepGrows(s, step);
    FailureKept(s, step, r);
    var g :| 0 <= g < |s.rust.channels| && r in s.rust.channels[g].lost;
    assert ChannelGrows(s.rust.channels[g], Next(s, step).rust.channels[g]);
    assert r in Next(s, step).rust.channels[g].lost;
  }

  lemma FailureKept(s: System, step: Step, r: nat)
    requires r < |s.phases| && s.phases[r].Failed?
    ensures r < |Next(s, step).phases| && Next(s, step).phases[r].Failed?
  {
  }

  lemma {:induction false} WaitingOrDropped(s: System, steps: seq<Step>, r: nat)
    requires Inv(s) && Waits(s, r) && Cancel(r) !in steps
    ensures Waits(RunFrom(s, steps), r) || FailedByLoss(RunFrom(s, steps), r)
  {
    if steps == [] {
    } else {
      var last := |steps| - 1;
      var m := RunFrom(s, steps[..last]);
      WaitingOrDropped(s, steps[..last], r);
      RunInv(s, steps[..last]);
      if Waits(m, r) {
        ReceiveOrDropped(m, steps[last], r);
      } else {
        LostStays(m, steps[last], r);
      }
    }
  }

  /** A task that was dropped never got a handle. */
  lemma LostNeverHandled(s: System, r: nat)
    requires Inv(s) && LostOne(s, r)
    ensures r !in s.rust.handles
  {
    var g :| 0 <= g < |s.rust.channels| && r in s.rust.channels[g].lost;
    var ch := s.rust.channels[g];
    assert SentThrough(ch.sent, g, s.gens);
    ChannelParts(ch, r);
  }

  lemma WaitsOverRuns(s: System, steps: seq<Step>, r: nat)
    requires Inv(s) && Waits(s, r) && Cancel(r) !in steps && r in RunFrom(s, steps).rust.handles
    ensures Waits(RunFrom(s, steps), r)
  {
    WaitingOrDropped(s, steps, r);
    RunInv(s, steps);
    if FailedByLoss(RunFrom(s, steps), r) {
      LostNeverHandled(RunFrom(s, steps), r);
    }
  }

  /** A request sent to a server that stays up is given a handle, as in EverySentTaskIsPolled, and its
      connection then waits for the reply or has it, whatever happened in between. */
  lemma SentRequestWaits(s: System, a: seq<Step>, b: seq<Step>, c: seq<Step>, e: nat, r: nat)
    requires Reachable(s) && Up(s, e) && r < |s.phases| && s.phases[r].Sent? && s.rust.rx == Some(s.phases[r].channel)
    requires StopBegin !in a && LoopAbort(e) !in a && LoadNotifier(r) !in a
    requires StopBegin !in b && LoopAbort(e) !in b && Fire(r) !in b
    requires StopBegin !in c && LoopAbort(e) !in c && Occurrences(LoopStep(e), c) >= 194 && Cancel(r) !in c
    ensures var t := RunFrom(s, a + [LoadNotifier(r)] + b + [Fire(r)] + c);
            Reachable(t) && r in t.rust.handles && Waits(t, r)
  {
    ReachableInv(s);
    EverySentTaskIsPolled(s, a, b, c, e, r);
    FiredWaits(s, a, b, r);
    var before := a + [LoadNotifier(r)] + b + [Fire(r)];
    RunConcat(s, before, c);
    RunInv(s, before);
    WaitsOverRuns(RunFrom(s, before), c, r);
    ReachableOn(s, before + c);
  }

  lemma ReachableOn(s: System, steps: seq<Step>)
    requires Reachable(s)
    ensures Reachable(RunFrom(s, steps))
  {
    var earlier :| s == RunFrom(INITIAL, earlier);
    RunConcat(INITIAL, earlier, steps);
  }

  /** Only its own load and fire move a connection that has sent. */
  lemma {:induction false} PhaseKeptOverRuns(s: System, steps: seq<Step>, r: nat)
    requires r < |s.phases| && (s.phases[r].Sent? || s.phases[r].Loaded?) && OwnStep(s.phases[r], r) !in steps
    ensures r < |RunFrom(s, steps).phases| && RunFrom(s, steps).phases[r] == s.phases[r]
  {
    if steps == [] {
    } else {
      var last := |steps| - 1;
      PhaseKeptOverRuns(s, steps[..last], r);
      PhaseKept(RunFrom(s, steps[..last]), steps[last], r);
    }
  }

  lemma FiredWaits(s: System, a: seq<Step>, b: seq<Step>, r: nat)
    requires r < |s.phases| && s.phases[r].Sent? && LoadNotifier(r) !in a && Fire(r) !in b
    ensures Waits(RunFrom(s, a + [LoadNotifier(r)] + b + [Fire(r)]), r)
  {
    var m := RunFrom(s, a);
    PhaseKeptOverRuns(s, a, r);
    RunConcat(s, a, [LoadNotifier(r)]);
    OneStep(m, LoadNotifier(r));
    var n := RunFrom(s, a + [LoadNotifier(r)]);
    assert n.phases[r].Loaded?;
    PhaseKeptOverRuns(n, b, r);
    RunConcat(s, a + [LoadNotifier(r)], b);
    RunConcat(s, a + [LoadNotifier(r)] + b, [Fire(r)]);
    OneStep(RunFrom(n, b), Fire(r));
  }

  // ----- a whole run

  const SENT_STEPS := [Arrive, CloneSender(0), SendTask(0), LoadNotifier(0)]
  const TAKEN_STEPS := [Fire(0), LoopStep(0), LoopStep(0), LoopStep(0)]

  function AnswerSteps(response: Response): seq<Step> {
    [LoopStep(0), Complete(0, response), Receive(0), Finish(0)]
  }

  const LOADED := UP.(phases := [Loaded(0, Some(0))], gens := [Some(0)],
                      rust := UP.rust.(channels := [Channel(true, [0], [0], [], [])]))

  const POLLED := UP.(phases := [Awaiting(0)], gens := [Some(0)], conds := [true], loops := [Spawning(0)], handlers := [Pending],
                      rust := UP.rust.(channels := [Channel(true, [], [0], [0], [])], handles := [0]))

  lemma RequestSent()
    ensures RunFrom(UP, SENT_STEPS) == LOADED
  {
    FourSteps(UP, Arrive, CloneSender(0), SendTask(0), LoadNotifier(0));
    var a := Next(UP, Arrive);
    assert a == UP.(phases := [Started], gens := [None]);
    var b := Next(a, CloneSender(0));
    assert b == UP.(phases := [Sending(0)], gens := [None]);
    var c := Next(b, SendTask(0));
    FirstTask();
    assert c.phases == [Phase.Sent(0)] && c.gens == [Some(0)] && c.rust.channels == [Push(NEW_CHANNEL, 0)];
  }

  lemma FirstTask()
    ensures Push(NEW_CHANNEL, 0) == Channel(true, [0], [0], [], [])
  {
    assert [] + [0] == [0];
  }

  const WOKEN := LOADED.(phases := [Awaiting(0)], conds := [true])

  lemma RequestPolled()
    ensures RunFrom(LOADED, TAKEN_STEPS) == POLLED
  {
    FourSteps(LOADED, Fire(0), LoopStep(0), LoopStep(0), LoopStep(0));
    assert Next(LOADED, Fire(0)) == WOKEN;
    LoopDrains();
    FirstPoll();
  }

  lemma LoopDrains()
    ensures Next(Next(WOKEN, LoopStep(0)), LoopStep(0)) == WOKEN.(loops := [Polling])
  {
    assert Next(WOKEN, LoopStep(0)) == WOKEN.(loops := [Draining]);
  }

  lemma FirstPoll()
    ensures Next(WOKEN.(loops := [Polling]), LoopStep(0)) == POLLED
  {
    var s := WOKEN.(loops := [Polling]);
    var ch := s.rust.channels[0];
    assert ch.queue[1..] == [] && ch.polled + [ch.queue[0]] == [0];
    assert s.rust.channels[0 := Channel(true, [], [0], [0], [])] == [Channel(true, [], [0], [0], [])];
    assert PollTask(s.rust) == POLLED.rust;
    assert s.loops[0 := Spawning(0)] == [Spawning(0)] && s.handlers + [Pending] == [Pending];
  }

  const RUNNING := POLLED.(handlers := [Running], inflight := 1, loops := [Draining])

  function Completed(response: Response): System {
    RUNNING.(handlers := [Replied], rust := POLLED.rust.(replies := map[0 := Reply(0, Taken(response))]))
  }

  lemma HandlerCompletes(response: Response)
    ensures Next(Next(POLLED, LoopStep(0)), Complete(0, response)) == Completed(response)
  {
    assert Next(POLLED, LoopStep(0)) == RUNNING;
    assert Next(RUNNING, Complete(0, response)).rust.replies == map[0 := Reply(0, Taken(response))];
  }

  lemma RequestReplied(response: Response)
    ensures var t := RunFrom(POLLED, AnswerSteps(response));
            |t.phases| == 1 && t.phases[0] == Answered(Reply(0, Taken(response)))
  {
    FourSteps(POLLED, LoopStep(0), Complete(0, response), Receive(0), Finish(0));
    HandlerCompletes(response);
  }

  lemma RunsJoined(more: seq<Step>)
    ensures RunFrom(INITIAL, RESTART + SENT_STEPS + TAKEN_STEPS + more) == RunFrom(POLLED, more)
  {
    FirstServe();
    RequestSent();
    RequestPolled();
    RunConcat(INITIAL, RESTART, SENT_STEPS);
    RunConcat(INITIAL, RESTART + SENT_STEPS, TAKEN_STEPS);
    RunConcat(INITIAL, RESTART + SENT_STEPS + TAKEN_STEPS, more);
  }

  /** For every response there is a run in which a request is answered with it. */
  lemma AnswerIsReached(response: Response)
    ensures exists s :: Reachable(s) && |s.phases| == 1 && s.phases[0] == Answered(Reply(0, Taken(response)))
  {
    RunsJoined(AnswerSteps(response));
    RequestReplied(response);
    assert Reachable(RunFrom(INITIAL, RESTART + SENT_STEPS + TAKEN_STEPS + AnswerSteps(response)));
  }
}
