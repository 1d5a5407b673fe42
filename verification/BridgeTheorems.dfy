/** What the bridge promises, over every run: every interleaving of its parts, from the initial state. */
module BridgeTheorems {
  import opened Basics
  import opened TaskBridge
  import opened BridgeSystem
  import BridgeProofs

  lemma {:induction false} RunInv(s: System, steps: seq<Step>)
    requires Inv(s)
    ensures Inv(RunFrom(s, steps))
  {
    if steps == [] {
    } else {
      var last := |steps| - 1;
      RunInv(s, steps[..last]);
      BridgeProofs.NextInv(RunFrom(s, steps[..last]), steps[last]);
    }
  }

  lemma NothingYet()
    ensures ChannelsOk([], []) && HandlesOk([], [], [], [], map[])
  {
  }

  lemma InitialInv()
    ensures Inv(INITIAL)
  {
  }

  /** The invariant holds in every reachable state. */
  lemma ReachableInv(s: System)
    requires Reachable(s)
    ensures Inv(s)
  {
    var steps :| s == RunFrom(INITIAL, steps);
    InitialInv();
    RunInv(INITIAL, steps);
  }

  lemma {:induction false} RunConcat(s: System, a: seq<Step>, b: seq<Step>)
    ensures RunFrom(s, a + b) == RunFrom(RunFrom(s, a), b)
  {
    if b == [] {
      assert a + b == a;
    } else {
      var last := |b| - 1;
      RunConcat(s, a, b[..last]);
      assert (a + b)[..|a + b| - 1] == a + b[..last];
    }
  }

  // ----- no lost wake-up

  /** While the registered loop waits with its wake flag clear, the channel it polls is empty, or some
      connection task has sent and has yet to fire, or a stop has yet to issue its own wake. */
  lemma NoLostWakeup(s: System)
    requires Reachable(s)
    requires s.current.Some? && s.current.value < |s.loops| && s.loops[s.current.value].Parked?
    requires s.current.value < |s.conds| && !s.conds[s.current.value]
    ensures NextTask(s.rust) == None || WakePending(s, s.rust.rx.value, s.current.value)
            || s.control.Stopping1? || s.control.Stopping2?
    ensures s.running ==> s.control.Idle?
  {
    ReachableInv(s);
  }

  // ----- conservation

  /** What has become of a request: it has not been sent, it waits in its channel, it went with its
      channel, a handler has it, it has been replied to, or its handler ended without a reply. */
  datatype Place = Unsent | Waiting | Dropped | Outstanding | Completed | Abandoned

  function Fate(p: HandlerPhase): Place {
    match p
    case Pending => Outstanding
    case Running => Outstanding
    case Replied => Completed
    case Lost => Abandoned
    case Done(replied) => if replied then Completed else Abandoned
  }

  predicate HeldAs(s: System, r: nat, h: int) {
    0 <= h < |s.rust.handles| && h < |s.handlers| && s.rust.handles[h] == r
  }

  ghost predicate IsAt(s: System, r: nat, p: Place)
    requires r < |s.gens| && (s.gens[r].Some? ==> s.gens[r].value < |s.rust.channels|)
  {
    match p
    case Unsent => s.gens[r] == None
    case Waiting => s.gens[r].Some? && r in s.rust.channels[s.gens[r].value].queue
    case Dropped => s.gens[r].Some? && r in s.rust.channels[s.gens[r].value].lost
    case _ => exists h :: HeldAs(s, r, h) && Fate(s.handlers[h]) == p
  }

  lemma Apart(a: seq<nat>, b: seq<nat>, r: nat)
    requires NoDuplicates(a + b) && r in a
    ensures r !in b
  {
    var i :| 0 <= i < |a| && a[i] == r;
    forall j | 0 <= j < |b| ensures b[j] != r {
      assert (a + b)[i] != (a + b)[|a| + j];
    }
  }

  lemma ChannelParts(ch: Channel, r: nat)
    requires ChannelOk(ch) && r in ch.sent
    ensures r in ch.polled || r in ch.queue || r in ch.lost
    ensures r in ch.polled ==> r !in ch.queue && r !in ch.lost
    ensures r in ch.queue ==> r !in ch.lost
  {
    var rest := ch.queue + ch.lost;
    assert ch.sent == ch.polled + rest;
    if r in ch.polled {
      Apart(ch.polled, rest, r);
    }
    if r in ch.queue {
      assert NoDuplicates(rest) by {
        assert forall k :: 0 <= k < |rest| ==> rest[k] == ch.sent[|ch.polled| + k];
      }
      Apart(ch.queue, ch.lost, r);
    }
  }

  /** A handle is held for one task only, and only for a task that was polled. */
  lemma HeldOnce(s: System, r: nat)
    requires HandlesOk(s.rust.channels, s.gens, s.rust.handles, s.handlers, s.rust.replies)
    ensures forall h, h' :: HeldAs(s, r, h) && HeldAs(s, r, h') ==> h == h'
    ensures forall h :: HeldAs(s, r, h) ==>
              r < |s.gens| && s.gens[r].Some? && s.gens[r].value < |s.rust.channels|
              && r in s.rust.channels[s.gens[r].value].polled
    ensures forall h :: HeldAs(s, r, h) ==> (Fate(s.handlers[h]) == Completed <==> r in s.rust.replies)
  {
  }

  /** Every request is in exactly one place; it is completed exactly when a reply has been sent for it. */
  lemma Conservation(s: System, r: nat)
    requires Reachable(s) && r < |s.gens|
    ensures s.gens[r].Some? ==> s.gens[r].value < |s.rust.channels|
    ensures exists p :: IsAt(s, r, p)
    ensures forall p, q :: IsAt(s, r, p) && IsAt(s, r, q) ==> p == q
    ensures IsAt(s, r, Completed) <==> r in s.rust.replies
  {
    ReachableInv(s);
    if s.gens[r].Some? {
      SomePlace(s, r);
    } else {
      assert IsAt(s, r, Unsent);
    }
    forall p, q | IsAt(s, r, p) && IsAt(s, r, q) ensures p == q {
      OnePlace(s, r, p, q);
    }
    CompletedMeansReplied(s, r);
  }

  lemma OnePlace(s: System, r: nat, p: Place, q: Place)
    requires ChannelsOk(s.rust.channels, s.gens)
    requires HandlesOk(s.rust.channels, s.gens, s.rust.handles, s.handlers, s.rust.replies)
    requires r < |s.gens| && (s.gens[r].Some? ==> s.gens[r].value < |s.rust.channels|)
    requires IsAt(s, r, p) && IsAt(s, r, q)
    ensures p == q
  {
    HeldOnce(s, r);
    if s.gens[r].Some? {
      ChannelParts(s.rust.channels[s.gens[r].value], r);
    }
  }

  lemma CompletedMeansReplied(s: System, r: nat)
    requires HandlesOk(s.rust.channels, s.gens, s.rust.handles, s.handlers, s.rust.replies)
    requires r < |s.gens| && (s.gens[r].Some? ==> s.gens[r].value < |s.rust.channels|)
    ensures IsAt(s, r, Completed) <==> r in s.rust.replies
  {
    HeldOnce(s, r);
    if r in s.rust.replies {
      assert HeldAs(s, r, s.rust.replies[r].handle);
    }
  }

  lemma SomePlace(s: System, r: nat)
    requires Inv(s) && r < |s.gens| && s.gens[r].Some? && s.gens[r].value < |s.rust.channels|
    ensures exists p :: IsAt(s, r, p)
  {
    var ch := s.rust.channels[s.gens[r].value];
    ChannelParts(ch, r);
    if r in ch.polled {
      assert r in s.rust.handles;
      var h: nat :| h < |s.rust.handles| && s.rust.handles[h] == r;
      assert HeldAs(s, r, h);
      assert IsAt(s, r, Fate(s.handlers[h]));
    } else {
      assert IsAt(s, r, Waiting) || IsAt(s, r, Dropped);
    }
  }

  /** The stored sender always belongs to the stored receiver, whose channel is the only live one: what
      was sent through it is what was polled from it and then what it holds, at most 64 tasks, in order. */
  lemma LiveChannel(s: System)
    requires Reachable(s)
    ensures s.rust.tx.Some? ==> s.rust.tx == s.rust.rx
    ensures s.rust.rx.Some? ==>
              && s.rust.rx.value < |s.rust.channels|
              && var ch := s.rust.channels[s.rust.rx.value];
                 ch.sent == ch.polled + ch.queue && NoDuplicates(ch.sent) && |ch.queue| <= 64
    ensures forall g :: 0 <= g < |s.rust.channels| && s.rust.rx != Some(g) ==> s.rust.channels[g].queue == []
  {
    ReachableInv(s);
    if s.rust.rx.Some? {
      var ch := s.rust.channels[s.rust.rx.value];
      assert ch.lost == [];
    }
  }

  // ----- histories only grow

  predicate Extends(a: seq<nat>, b: seq<nat>) {
    |a| <= |b| && a == b[..|a|]
  }

  predicate ChannelGrows(a: Channel, b: Channel) {
    Extends(a.sent, b.sent) && Extends(a.polled, b.polled) && Extends(a.lost, b.lost) && (b.open ==> a.open)
  }

  predicate ChannelsGrow(a: seq<Channel>, b: seq<Channel>) {
    |a| <= |b| && forall g :: 0 <= g < |a| ==> ChannelGrows(a[g], b[g])
  }

  predicate RepliesStand(a: map<nat, Reply>, b: map<nat, Reply>) {
    forall r :: r in a ==> r in b && b[r] == a[r]
  }

  /** What was sent, polled, dropped or handed out stays so, and no reply is ever replaced. */
  predicate Grows(a: Rust, b: Rust) {
    ChannelsGrow(a.channels, b.channels) && Extends(a.handles, b.handles) && RepliesStand(a.replies, b.replies)
  }

  lemma ChannelsGrowOn(a: seq<Channel>, b: seq<Channel>, c: seq<Channel>)
    requires ChannelsGrow(a, b) && ChannelsGrow(b, c)
    ensures ChannelsGrow(a, c)
  {
    forall g | 0 <= g < |a| ensures ChannelGrows(a[g], c[g]) {
      assert ChannelGrows(a[g], b[g]) && ChannelGrows(b[g], c[g]);
    }
  }

  lemma SendGrows(s: System, r: nat)
    requires r < |s.phases| && s.phases[r].Sending?
    ensures Grows(s.rust, Sends(s, r).rust)
  {
  }

  lemma StartGrows(rust: Rust)
    requires rust.rx.Some? ==> rust.rx.value < |rust.channels|
    ensures Grows(rust, StartServer(rust))
  {
  }

  lemma PollGrows(rust: Rust)
    requires NextTask(rust).Some?
    ensures Grows(rust, PollTask(rust))
  {
  }

  lemma CompleteGrows(rust: Rust, h: nat, response: Response)
    requires h < |rust.handles| && rust.handles[h] !in rust.replies
    ensures Grows(rust, CompleteTask(rust, h, response))
  {
  }

  lemma OtherStepsTouchNoHistory(s: System, step: Step)
    requires !step.SendTask? && !step.ServeStart? && !step.LoopStep? && !step.Complete?
    ensures var t := Next(s, step).rust;
            t.channels == s.rust.channels && t.handles == s.rust.handles && t.replies == s.rust.replies
  {
  }

  lemma GrowsAlike(a: Rust, b: Rust)
    requires b.channels == a.channels && b.handles == a.handles && b.replies == a.replies
    ensures Grows(a, b)
  {
  }

  lemma LoopGrows(s: System, e: nat)
    ensures Grows(s.rust, LoopOf(s, e).rust)
  {
    if NextTask(s.rust).Some? {
      PollGrows(s.rust);
    }
    GrowsAlike(s.rust, s.rust);
  }

  lemma HandlerGrows(s: System, h: nat, response: Response)
    requires HandlesOk(s.rust.channels, s.gens, s.rust.handles, s.handlers, s.rust.replies)
    ensures Grows(s.rust, HandlerStep(s, h, Complete(h, response)).rust)
  {
    if h < |s.handlers| && s.handlers[h].Running? {
      BridgeProofs.CompleteHandles(s.rust.channels, s.gens, s.rust.handles, s.handlers, s.rust.replies, h, response);
      CompleteGrows(s.rust, h, response);
    } else {
      GrowsAlike(s.rust, s.rust);
    }
  }

  lemma StepGrows(s: System, step: Step)
    requires s.rust.rx.Some? ==> s.rust.rx.value < |s.rust.channels|
    requires HandlesOk(s.rust.channels, s.gens, s.rust.handles, s.handlers, s.rust.replies)
    ensures Grows(s.rust, Next(s, step).rust)
  {
    GrowsAlike(s.rust, s.rust);
    if step.SendTask? && step.r < |s.phases| && s.phases[step.r].Sending? {
      SendGrows(s, step.r);
    } else if step.ServeStart? {
      StartGrows(s.rust);
    } else if step.LoopStep? {
      LoopGrows(s, step.e);
    } else if step.Complete? {
      HandlerGrows(s, step.h, step.response);
    } else if !step.SendTask? {
      OtherStepsTouchNoHistory(s, step);
      GrowsAlike(s.rust, Next(s, step).rust);
    }
  }

  lemma {:induction false} RunGrows(s: System, steps: seq<Step>)
    requires Inv(s)
    ensures Grows(s.rust, RunFrom(s, steps).rust)
  {
    if steps == [] {
    } else {
      var last := |steps| - 1;
      var m := RunFrom(s, steps[..last]);
      RunGrows(s, steps[..last]);
      RunInv(s, steps[..last]);
      StepGrows(m, steps[last]);
      ChannelsGrowOn(s.rust.channels, m.rust.channels, Next(m, steps[last]).rust.channels);
    }
  }

  /** A connection is answered with the reply given through its own handle, the only handle its request
      ever has, and that reply stands whatever happens afterwards. */
  lemma OwnReply(s: System, r: nat, steps: seq<Step>)
    requires Reachable(s) && r < |s.phases| && s.phases[r].Answered?
    ensures var reply := s.phases[r].reply;
            && HeldAs(s, r, reply.handle)
            && (forall h :: HeldAs(RunFrom(s, steps), r, h) ==> h == reply.handle)
            && r in RunFrom(s, steps).rust.replies && RunFrom(s, steps).rust.replies[r] == reply
  {
    ReachableInv(s);
    assert PhaseOk(s, r);
    RunInv(s, steps);
    RunGrows(s, steps);
    HeldOnce(s, r);
    HeldOnce(RunFrom(s, steps), r);
  }

  /** A handle is completed at most once: only a request without a reply gets one. */
  lemma CompletedOnce(s: System, h: nat, response: Response)
    requires Reachable(s) && Next(s, Complete(h, response)) != s
    ensures h < |s.rust.handles| && s.rust.handles[h] !in s.rust.replies
    ensures Next(s, Complete(h, response)).rust.replies
            == s.rust.replies[s.rust.handles[h] := Reply(h, Taken(response))]
  {
    ReachableInv(s);
  }

  /** The request of a running handler has no reply. */
  lemma RunningUnreplied(s: System, h: nat)
    requires HandlesOk(s.rust.channels, s.gens, s.rust.handles, s.handlers, s.rust.replies)
    requires h < |s.handlers| && s.handlers[h].Running?
    ensures h < |s.rust.handles| && s.rust.handles[h] !in s.rust.replies
  {
  }
}
