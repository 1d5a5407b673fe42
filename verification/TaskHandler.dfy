/** The handling of one task in Julia: what is done in the try block, and what is done when it raises.
    Any call may raise; a call that sends a reply raises, if it does, before the reply is sent. */
module TaskHandler {
  import opened Basics
  import opened TaskBridge
  import opened BridgeSystem
  import BridgeTheorems
  import BridgeReplies

  datatype Raised = BadRequest(message: string) | OtherError

  datatype Call =
    | ActiveApp | ReadTask | FindHandler | CoerceQuery | BuildRequest | RunHandler | ConvertResult
    | CopyReply | EncodeStatus | SendReply
    | ReportError | CopyError | SendError

  /** What a handler returns: a body, or a tuple of up to a body, a content type and a status. */
  datatype HandlerResult =
    | Bare(body: string)
    | Tuple0
    | Tuple1(body: string)
    | Tuple2(body: string, contentType: Option<string>)
    | Tuple3(body: string, contentType: Option<string>, status: int)
  {
    function Body(): string {
      if Tuple0? then "" else body
    }

    function ContentType(): Option<string> {
      if Tuple2? || Tuple3? then contentType else Some(PLAIN)
    }

    function Status(): int {
      if Tuple3? then status else 200
    }
  }

  /** A task as its handling sees it: whether a handler is found, what it returns, and which calls raise. */
  datatype Task = Task(found: bool, result: HandlerResult, failures: Call -> Option<Raised>) {
    /** A status that does not fit 16 bits raises. */
    function Raises(call: Call): Option<Raised> {
      if call.EncodeStatus? && !(0 <= result.Status() < 0x1_0000) then Some(OtherError) else failures(call)
    }
  }

  function Or(a: Option<Raised>, b: Option<Raised>): Option<Raised> {
    if a.Some? then a else b
  }

  /** What the try block raises first. */
  function TryRaises(task: Task): Option<Raised> {
    Or(task.Raises(ActiveApp), Or(task.Raises(ReadTask), Or(task.Raises(FindHandler),
       if task.found then FoundRaises(task) else Or(task.Raises(CopyReply), task.Raises(SendReply)))))
  }

  function FoundRaises(task: Task): Option<Raised> {
    Or(task.Raises(CoerceQuery), Or(task.Raises(BuildRequest), Or(task.Raises(RunHandler),
       Or(task.Raises(ConvertResult), Or(task.Raises(CopyReply), Or(task.Raises(EncodeStatus), task.Raises(SendReply)))))))
  }

  function RecoveryRaises(task: Task): Option<Raised> {
    Or(task.Raises(ReportError), Or(task.Raises(CopyError), task.Raises(SendError)))
  }

  /** The status of a reply that is sent. */
  function StatusOf(task: Task): nat {
    if 0 <= task.result.Status() < 0x1_0000 then task.result.Status() else 0
  }

  /** The reply of a task that goes well. */
  function Answer(task: Task): Response {
    if !task.found then Response(404, "Not Found", Some(PLAIN))
    else Response(StatusOf(task), task.result.Body(), task.result.ContentType())
  }

  function ErrorAnswer(raised: Raised): Response {
    match raised
    case BadRequest(message) => Response(400, message, Some(PLAIN))
    case OtherError => Response(500, "Internal Server Error", Some(PLAIN))
  }

  /** The replies sent in the handling of a task. */
  function Replies(task: Task): seq<Response> {
    match TryRaises(task)
    case None => [Answer(task)]
    case Some(raised) => if RecoveryRaises(task) == None then [ErrorAnswer(raised)] else []
  }

  /** The handle of a task, with the replies sent through it. */
  class TaskHandle {
    var replies: seq<Response>

    constructor ()
      ensures replies == []
    {
      replies := [];
    }

    method Complete(response: Response)
      modifies this
      ensures replies == old(replies) + [response]
    {
      replies := replies + [response];
    }
  }

  /** The try block. */
  method TryTask(handle: TaskHandle, task: Task) returns (raised: Option<Raised>)
    modifies handle
    ensures raised == TryRaises(task)
    ensures handle.replies == old(handle.replies) + if raised == None then [Answer(task)] else []
  {
    raised := task.Raises(ActiveApp);
    if raised.Some? { return; }
    raised := task.Raises(ReadTask);
    if raised.Some? { return; }
    raised := task.Raises(FindHandler);
    if raised.Some? { return; }
    if !task.found {
      raised := task.Raises(CopyReply);
      if raised.Some? { return; }
      raised := task.Raises(SendReply);
      if raised.Some? { return; }
      handle.Complete(Response(404, "Not Found", Some(PLAIN)));
      return;
    }
    raised := task.Raises(CoerceQuery);
    if raised.Some? { return; }
    raised := task.Raises(BuildRequest);
    if raised.Some? { return; }
    raised := task.Raises(RunHandler);
    if raised.Some? { return; }
    raised := task.Raises(ConvertResult);
    if raised.Some? { return; }
    raised := task.Raises(CopyReply);
    if raised.Some? { return; }
    raised := task.Raises(EncodeStatus);
    if raised.Some? { return; }
    raised := task.Raises(SendReply);
    if raised.Some? { return; }
    handle.Complete(Response(task.result.Status(), task.result.Body(), task.result.ContentType()));
  }

  /** The handling of a task: when the try block raises, one more attempt to reply. */
  method HandleTask(handle: TaskHandle, task: Task)
    modifies handle
    ensures handle.replies == old(handle.replies) + Replies(task)
  {
    var raised := TryTask(handle, task);
    if raised == None {
      return;
    }
    var again := task.Raises(ReportError);
    if again.Some? { return; }
    again := task.Raises(CopyError);
    if again.Some? { return; }
    again := task.Raises(SendError);
    if again.Some? { return; }
    handle.Complete(ErrorAnswer(raised.value));
  }

  /** The calls of the two blocks. */
  function TryCalls(task: Task): set<Call> {
    {ActiveApp, ReadTask, FindHandler, CopyReply, SendReply}
    + if task.found then {CoerceQuery, BuildRequest, RunHandler, ConvertResult, EncodeStatus} else {}
  }

  const RECOVERY_CALLS := {ReportError, CopyError, SendError}

  predicate AllReturn(calls: set<Call>, task: Task) {
    forall c :: c in calls ==> task.Raises(c) == None
  }

  lemma BlocksReturn(task: Task)
    ensures TryRaises(task) == None <==> AllReturn(TryCalls(task), task)
    ensures RecoveryRaises(task) == None <==> AllReturn(RECOVERY_CALLS, task)
  {
  }

  /** A task is replied to at most once, whatever raises; it is never replied to exactly when a call
      of the try block raises and a call of the recovery does too. The reply is the handler's own, or
      that no handler was found, exactly when nothing in the try block raises. */
  lemma RepliedAtMostOnce(task: Task)
    ensures |Replies(task)| <= 1
    ensures Replies(task) == [] <==> !AllReturn(TryCalls(task), task) && !AllReturn(RECOVERY_CALLS, task)
    ensures AllReturn(TryCalls(task), task) ==> Replies(task) == [Answer(task)]
    ensures !AllReturn(TryCalls(task), task) && Replies(task) != [] ==> Replies(task)[0].status in {400, 500}
  {
    BlocksReturn(task);
  }

  /** The calls of the try block, in order. */
  function TryOrder(task: Task): seq<Call> {
    if task.found then
      [ActiveApp, ReadTask, FindHandler, CoerceQuery, BuildRequest, RunHandler, ConvertResult, CopyReply, EncodeStatus, SendReply]
    else [ActiveApp, ReadTask, FindHandler, CopyReply, SendReply]
  }

  /** Call i of the try block is the first that raises. */
  predicate RaisesAt(task: Task, i: int, raised: Raised) {
    0 <= i < |TryOrder(task)| && task.Raises(TryOrder(task)[i]) == Some(raised)
    && forall j :: 0 <= j < i ==> task.Raises(TryOrder(task)[j]) == None
  }

  lemma FirstRaised(task: Task, i: int, raised: Raised)
    requires RaisesAt(task, i, raised)
    ensures TryRaises(task) == Some(raised)
  {
    var calls := TryOrder(task);
    assert 0 < i ==> task.Raises(calls[0]) == None;
    assert 1 < i ==> task.Raises(calls[1]) == None;
    assert 2 < i ==> task.Raises(calls[2]) == None;
    assert 3 < i ==> task.Raises(calls[3]) == None;
    assert 4 < i ==> task.Raises(calls[4]) == None;
    assert 5 < i ==> task.Raises(calls[5]) == None;
    assert 6 < i ==> task.Raises(calls[6]) == None;
    assert 7 < i ==> task.Raises(calls[7]) == None;
    assert 8 < i ==> task.Raises(calls[8]) == None;
  }

  /** The replies themselves. When nothing raises: that no handler was found, or what the handler
      returned, a missing status being 200 and a missing content type plain text. When the block
      raises and the recovery goes through: the message of a bad request with 400, and 500 for
      everything else, whichever call raised it. */
  lemma RepliesExactly(task: Task)
    ensures AllReturn(TryCalls(task), task) && !task.found ==> Replies(task) == [Response(404, "Not Found", Some("text/plain"))]
    ensures AllReturn(TryCalls(task), task) && task.found ==>
              match task.result
              case Bare(body) => Replies(task) == [Response(200, body, Some("text/plain"))]
              case Tuple0 => Replies(task) == [Response(200, "", Some("text/plain"))]
              case Tuple1(body) => Replies(task) == [Response(200, body, Some("text/plain"))]
              case Tuple2(body, contentType) => Replies(task) == [Response(200, body, contentType)]
              case Tuple3(body, contentType, status) =>
                0 <= status < 65536 && Replies(task) == [Response(status, body, contentType)]
    ensures forall i, raised :: RaisesAt(task, i, raised) && AllReturn(RECOVERY_CALLS, task) ==>
              Replies(task) == if raised.BadRequest? then [Response(400, raised.message, Some("text/plain"))]
                               else [Response(500, "Internal Server Error", Some("text/plain"))]
  {
    BlocksReturn(task);
    forall i, raised | RaisesAt(task, i, raised) ensures TryRaises(task) == Some(raised) {
      FirstRaised(task, i, raised);
    }
    if AllReturn(TryCalls(task), task) && task.found {
      assert EncodeStatus in TryCalls(task) && task.Raises(EncodeStatus) == None;
    }
  }

  /** A handler's status that does not fit 16 bits is answered with 500, and a status of zero reaches
      the client as 200. */
  lemma OddStatuses(task: Task)
    requires task.found && AllReturn(TryCalls(task) - {EncodeStatus}, task) && AllReturn(RECOVERY_CALLS, task)
    requires task.failures(EncodeStatus) == None
    ensures !(0 <= task.result.Status() < 0x1_0000) ==> Replies(task) == [ErrorAnswer(OtherError)]
    ensures task.result.Status() == 0 ==> |Replies(task)| == 1 && Taken(Replies(task)[0]).status == 200
  {
    BlocksReturn(task);
    assert forall c :: c in TryCalls(task) && c != EncodeStatus ==> c in TryCalls(task) - {EncodeStatus};
  }

  /** What the handling of a task is in the bridge: one reply, or a reply that is lost. */
  function StepOf(h: nat, task: Task): Step {
    if Replies(task) == [] then LoseReply(h) else Complete(h, Replies(task)[0])
  }

  /** In the bridge, the request of a running handler gets its first reply then, and gets it exactly
      when one of the two blocks goes through. */
  lemma RequestReplied(s: System, h: nat, task: Task)
    requires Reachable(s) && h < |s.handlers| && s.handlers[h].Running?
    ensures h < |s.rust.handles| && s.rust.handles[h] !in s.rust.replies
    ensures var t, r := Next(s, StepOf(h, task)), s.rust.handles[h];
            && (r in t.rust.replies <==> AllReturn(TryCalls(task), task) || AllReturn(RECOVERY_CALLS, task))
            && (r in t.rust.replies ==> t.rust.replies[r] == Reply(h, Taken(Replies(task)[0])))
  {
    RepliedAtMostOnce(task);
    BridgeTheorems.ReachableInv(s);
    BridgeTheorems.RunningUnreplied(s, h);
  }

  /** So a connection that waits has the reply of the handling at the end of every continuation in which
      it receives and is not cancelled. */
  lemma TaskAnswered(s: System, r: nat, h: nat, task: Task, steps: seq<Step>)
    requires Reachable(s) && r < |s.phases| && s.phases[r].Awaiting?
    requires BridgeTheorems.HeldAs(s, r, h) && s.handlers[h].Running?
    requires AllReturn(TryCalls(task), task) || AllReturn(RECOVERY_CALLS, task)
    requires Receive(r) in steps && Cancel(r) !in steps
    ensures |Replies(task)| == 1
    ensures var t := RunFrom(Next(s, StepOf(h, task)), steps);
            r < |t.phases| && t.phases[r] == Answered(Reply(h, Taken(Replies(task)[0])))
  {
    RepliedAtMostOnce(task);
    BridgeReplies.HandlerReplyArrives(s, r, h, Replies(task)[0], steps);
  }
}
