/** The bridge that carries HTTP requests from the Rust connection tasks to the Julia poll loop and
    the replies back: its state, and every step its parts can take. The parts run concurrently, so a
    run is any interleaving of steps; starting and stopping the server is done by one caller at a time.

    What is assumed of the libraries: the task channel is first in, first out and holds 64 tasks;
    a sender waits while it is full and fails once the receiver is gone, and a receiver that goes
    drops the tasks left in it; a wake flag is latched, and waiting on it clears it; a one-shot
    reply is delivered once. */
module TaskBridge {
  import opened Basics

  const CAPACITY := 64

  // ----- the Rust side

  /** A task channel. Tasks are named by their requests; sent, polled and lost record what has
      happened to them. */
  datatype Channel = Channel(open: bool, queue: seq<nat>, sent: seq<nat>, polled: seq<nat>, lost: seq<nat>)

  const NEW_CHANNEL := Channel(true, [], [], [], [])

  /** What a handler hands over for its task. The content type is None when its bytes are not UTF-8. */
  datatype Response = Response(status: nat, body: string, contentType: Option<string>)

  const PLAIN := "text/plain"

  /** How it is taken: a status of zero stands for 200, and a content type that is empty or not UTF-8
      for plain text. */
  function Taken(r: Response): Response {
    Response(if r.status == 0 then 200 else r.status, r.body,
             if r.contentType == None || r.contentType == Some("") then Some(PLAIN) else r.contentType)
  }

  lemma TakenExactly(r: Response)
    ensures Taken(r).body == r.body
    ensures r.status != 0 ==> Taken(r).status == r.status
    ensures r.status == 0 ==> Taken(r).status == 200
    ensures forall text :: Taken(r).contentType == Some(text)
                           <==> if r.contentType.Some? && |r.contentType.value| > 0 then text == r.contentType.value
                                else text == "text/plain"
  {
  }

  /** A reply and the handle it was given through. */
  datatype Reply = Reply(handle: nat, response: Response)

  /** The server state, the stored receiver, the notifier, the handles given out so far (each with
      its request) and the one-shot replies sent so far. */
  datatype Rust = Rust(shutdown: bool, tx: Option<nat>, rx: Option<nat>, channels: seq<Channel>,
                       notifier: Option<nat>, handles: seq<nat>, replies: map<nat, Reply>)

  const STOPPED := Rust(false, None, None, [], None, [], map[])

  datatype Status = FfiOk | AlreadyRunning | RuntimeError | NotReady | OkWithTask(handle: nat)

  /** A receiver that is replaced is closed, and what it held is dropped. */
  function Closed(ch: Channel): Channel {
    ch.(open := false, queue := [], lost := ch.lost + ch.queue)
  }

  /** A new channel takes the place of the stored one. */
  function ReplaceReceiver(rust: Rust): Rust {
    var g := |rust.channels|;
    var kept := if rust.rx.Some? && rust.rx.value < g
                then rust.channels[rust.rx.value := Closed(rust.channels[rust.rx.value])]
                else rust.channels;
    rust.(channels := kept + [NEW_CHANNEL], rx := Some(g), tx := Some(g))
  }

  /** fmh_server_start up to the point where the lock is released. */
  function StartServer(rust: Rust): Rust {
    if rust.shutdown then rust else ReplaceReceiver(rust).(shutdown := true)
  }

  /** fmh_server_stop: the sender and the notifier go, the receiver stays. */
  function StopServer(rust: Rust): Rust {
    rust.(shutdown := false, tx := None, notifier := None)
  }

  /** The task fmh_poll_http_task would take. */
  function NextTask(rust: Rust): Option<nat> {
    match rust.rx
    case None => None
    case Some(g) => if g < |rust.channels| && rust.channels[g].queue != [] then Some(rust.channels[g].queue[0]) else None
  }

  function PollTask(rust: Rust): Rust
    requires NextTask(rust).Some?
  {
    var g := rust.rx.value;
    var ch := rust.channels[g];
    rust.(channels := rust.channels[g := ch.(queue := ch.queue[1..], polled := ch.polled + [ch.queue[0]])],
          handles := rust.handles + [ch.queue[0]])
  }

  function CompleteTask(rust: Rust, handle: nat, response: Response): Rust
    requires handle < |rust.handles|
  {
    rust.(replies := rust.replies[rust.handles[handle] := Reply(handle, Taken(response))])
  }

  function Push(ch: Channel, r: nat): Channel {
    ch.(queue := ch.queue + [r], sent := ch.sent + [r])
  }

  /** The global state of the Rust library and the functions it exports, each one atomic. */
  class Runtime {
    var shutdown: bool
    var taskTx: Option<nat>
    var taskRx: Option<nat>
    var channels: seq<Channel>
    var notifier: Option<nat>
    var handles: seq<nat>
    var replies: map<nat, Reply>

    ghost function Model(): Rust
      reads this
    {
      Rust(shutdown, taskTx, taskRx, channels, notifier, handles, replies)
    }

    /** A stored receiver belongs to a channel. */
    ghost predicate Valid()
      reads this
    {
      taskRx.Some? ==> taskRx.value < |channels|
    }

    constructor ()
      ensures Valid() && Model() == STOPPED
    {
      shutdown, taskTx, taskRx, channels, notifier, handles, replies := false, None, None, [], None, [], map[];
    }

    method SetHttpTaskRx(g: nat)
      requires Valid() && g < |channels| && taskRx != Some(g)
      modifies this`taskRx, this`channels
      ensures Valid() && taskRx == Some(g)
      ensures channels == if old(taskRx).Some? then old(channels)[old(taskRx).value := Closed(old(channels)[old(taskRx).value])]
                          else old(channels)
    {
      if taskRx.Some? {
        channels := channels[taskRx.value := Closed(channels[taskRx.value])];
      }
      taskRx := Some(g);
    }

    /** Up to the release of the lock, then the answer of the bind. */
    method ServerStart(bound: bool) returns (status: Status)
      requires Valid()
      modifies this
      ensures Valid()
      ensures status == if old(shutdown) then AlreadyRunning else if bound then FfiOk else RuntimeError
      ensures Model() == if old(shutdown) then old(Model()) else StartServer(old(Model())).(shutdown := bound)
    {
      if shutdown {
        return AlreadyRunning;
      }
      var g := |channels|;
      ghost var before := channels;
      channels := channels + [NEW_CHANNEL];
      SetHttpTaskRx(g);
      if old(taskRx).Some? {
        assert channels == before[old(taskRx).value := Closed(before[old(taskRx).value])] + [NEW_CHANNEL];
      }
      shutdown := true;
      taskTx := Some(g);
      if bound {
        status := FfiOk;
      } else {
        shutdown := false;
        status := RuntimeError;
      }
    }

    method ServerStop() returns (status: Status)
      requires Valid()
      modifies this
      ensures Valid()
      ensures status == FfiOk && Model() == StopServer(old(Model()))
    {
      shutdown := false;
      taskTx := None;
      notifier := None;
      status := FfiOk;
    }

    method SetHttpNotifier(cond: Option<nat>)
      modifies this`notifier
      ensures Model() == old(Model()).(notifier := cond)
    {
      notifier := cond;
    }

    method PollHttpTask() returns (status: Status)
      requires Valid()
      modifies this
      ensures Valid()
      ensures NextTask(old(Model())) == None ==> status == NotReady && Model() == old(Model())
      ensures NextTask(old(Model())).Some? ==>
                status == OkWithTask(|old(handles)|) && Model() == PollTask(old(Model()))
    {
      if taskRx == None || channels[taskRx.value].queue == [] {
        return NotReady;
      }
      var ch := channels[taskRx.value];
      var task := ch.queue[0];
      channels := channels[taskRx.value := ch.(queue := ch.queue[1..], polled := ch.polled + [task])];
      status := OkWithTask(|handles|);
      handles := handles + [task];
    }

    method CompleteHttpTask(handle: nat, sent: Response) returns (status: Status)
      requires handle < |handles|
      modifies this`replies
      ensures status == FfiOk && Model() == CompleteTask(old(Model()), handle, sent)
    {
      var contentType := sent.contentType;
      if contentType == None || |contentType.value| == 0 {
        contentType := Some(PLAIN);
      }
      var response := Response(if sent.status == 0 then 200 else sent.status, sent.body, contentType);
      replies := replies[handles[handle] := Reply(handle, response)];
      status := FfiOk;
    }
  }
}
