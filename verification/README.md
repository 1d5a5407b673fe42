# Fomalhaut: a verified model

Fomalhaut is a Rust HTTP and WebSocket front end that hands requests to a Julia application. This
project models what the two sides do together and proves what they promise.

| file | what it models |
|---|---|
| `TaskBridge.dfy` | the state of the Rust library behind the task bridge, and a class with its exported functions |
| `BridgeSystem.dfy` | the whole bridge as a step system: connection tasks, channel generations, wake flags, poll loops, handlers, starting and stopping; and its invariant |
| `BridgeProofs.dfy` | every step keeps the invariant |
| `BridgeTheorems.dfy` | safety over every run: no lost wake-up, conservation, first in first out, replies |
| `BridgeLiveness.dfy` | progress under every schedule: queued tasks are polled, stopped loops end |
| `BridgeReplies.dfy` | the steps of a connection task, and that the reply of a request's handler arrives |
| `BridgeCalls.dfy` | what `serve` and `stop_server!` do to the state they are called in |
| `BridgeRestart.dfy` | a second `serve` against a loop that has not ended yet |
| `BridgeLateStarts.dfy` | handlers that start after a stop has returned |
| `TaskHandler.dfy` | the handling of one task in Julia, with everything that may raise in it |
| `RequestHead.dfy`, `RequestReader.dfy` | the incremental request reader against a description of the whole stream; headers across the foreign function interface |
| `Heads.dfy` | what heads mean, said on the texts they are put together from |
| `Connections.dfy` | the peek that decides whether a connection is refused, upgraded or read |
| `RoutePatterns.dfy`, `Routers.dfy`, `RouteOrders.dfy`, `RouteSides.dfy` | route matching, path parameters, resolution in Rust and again in Julia, when it depends on the order of the tables, and when the two sides choose the same route |
| `Dispatch.dfy` | what becomes of a request once its route is resolved |
| `WebSocketHub.dfy` | broadcasting through watch channels, for every interleaving of publishers and clients |
| `HubDelivery.dfy` | which channel a frame goes to, and that its clients get it |
| `Envelope.dfy` | the 17-byte envelope and its two builders |
| `PercentCoding.dfy`, `QueryString.dfy` | both percent decoders, the query parser, and the lookup of the native fast path |
| `SqlStatements.dfy` | the generated SQL text and the values bound to it, against a grammar |
| `Dictionaries.dfy`, `Text.dfy` | dictionaries filled by a loop; searching, splitting, joining, trimming, decimal numbers |

Text is a sequence of characters, each one standing for a byte. Hash maps and dictionaries are scanned
in an arbitrary order of their keys, which is a parameter. A read from a socket gives any non-empty
piece of what is left, or fails. Timestamps are arbitrary numbers of 64 bits. The bridge and the hub
are machines whose atomic steps may come in any order; the timeout of a request is a `Cancel` step
that may come at any time except between a task being sent and its notifier being fired, where the
code has no suspension point.

## Findings

Nine claims that one might expect to hold do not. Each is stated here with the condition under which it does.

- A loop that has been stopped can be left waiting for good. `stop_server!` does not wait for the poll
  loop to end; when `serve` is called again first, the old loop sees the running flag set, waits on its
  own condition, and nothing notifies that any more. `BridgeRestart.StrandableExactly`: after a stop
  has returned, this can happen exactly when the loop has not ended by then.
- A handler can still be started after `stop_server!` has returned, which waits only for the handlers
  that were started. `BridgeLateStarts.LateStartExactly`: a loop can do so, until `serve` is called again,
  exactly when it has taken a task already, or is past its running check while a task waits or a
  connection still holds a sender.
- Whether a request is served depends on how its bytes arrive. A connection is peeked at once, for at
  most 65536 bytes, and answered with 400 unless they show the whole head.
  `Connections.ConnectionExact`: it is refused exactly when the peek ends before the blank line, or the
  head before it does not parse; otherwise the stream alone decides, and no cut of the later reads makes
  a difference. `Connections.PeekDecides`: any stream is refused when the peek sees only its first byte.
- The reader taken alone has a header limit that is not sharp. When the blank line ends between 65537
  and 69631, it is refused exactly when some read ended at 65536 or later and before the blank line's
  end, and for every such stream there are reads of both kinds. `RequestReader.HeaderPhaseExact`,
  `RequestReader.GapDependsOnCuts`. In the program the peek refuses all of these streams before they
  are read.
- The Axis stream casts the payload length to 32 bits unchecked. Its frame is valid exactly when the
  payload is shorter than 2^32 bytes. `Envelope.BuildAxisFrame`, `WebSocketHub.LimitIsSharp`.
- The fast path's query lookup and the query parser can differ. On queries without escapes they agree
  exactly when the key does not occur, or the first part that carries it has the same value as the last
  part keyed by it, where a key that stands alone has the empty value and is not seen by the fast path.
  `QueryString.LookupsAgree`; inputs on which they differ are in `QueryString.LookupsOnKeyAlone` and
  `QueryString.LookupsOnRepeatedKey`.
- Substituting the path parameters back rebuilds the path exactly when a name used twice in a pattern
  has the same value both times. `RoutePatterns.ParamsRebuildPath`; an input where it fails is in
  `RoutePatterns.RepeatedNameLosesValue`.
- A handler registered for GET on the root does not run for the path `/`: the server answers that
  itself, whatever the resolution is. It runs exactly for the other paths without segments, such as
  `//`. `Dispatch.RootPathAnsweredFirst`, `Dispatch.RootHandlerRunsExactly`; `Dispatch.ReachesJulia` says
  exactly which of the requests that come to resolution reach Julia.
- The two routers can choose different routes. With `/u/me` and `/u/:id`, the request `/u/me/` is an exact
  hit for Rust, while Julia scans and may run the other one. `RouteSides.SidesAgreeExactly` says exactly
  when they always choose the same; `RouteSides.LiteralAndParameter` is the failing input.

Where code and documentation disagree the code is followed: the test at `fomalhaut_rs/src/lib.rs:41`
expects `fmh_server_stop` to report that nothing is running, but the code returns `FFI_OK`.

## Model

| member | source | states |
|---|---|---|
| TaskBridge.Runtime.ServerStart | fomalhaut_rs/src/ffi/server.rs:113-201 | refused and unchanged when a server is up; otherwise the old receiver is closed with its tasks, sender and receiver are a new pair, and the shutdown handle stays only when the bind succeeded |
| TaskBridge.Runtime.ServerStop | fomalhaut_rs/src/ffi/server.rs:204-218 | always succeeds; sender, notifier and shutdown handle go, the receiver and its queue stay |
| TaskBridge.Runtime.SetHttpTaskRx | fomalhaut_rs/src/runtime/state.rs:59-69 | the stored receiver is replaced, and the one it replaces is closed and drops its tasks |
| TaskBridge.Runtime.SetHttpNotifier | fomalhaut_rs/src/runtime/state.rs:83-91 | the notifier, and nothing else, is replaced or cleared |
| TaskBridge.Runtime.PollHttpTask | fomalhaut_rs/src/ffi/server.rs:312-354 | takes the head of the stored receiver's queue and gives out the next handle for it, or reports not ready and changes nothing |
| TaskBridge.Runtime.CompleteHttpTask | fomalhaut_rs/src/ffi/server.rs:357-404 | the reply goes to the request of that handle only |
| TaskBridge.TakenExactly | fomalhaut_rs/src/ffi/server.rs:370-396 | the body and every non-zero status arrive unchanged, 0 as 200; a non-empty UTF-8 content type arrives unchanged, any other as text/plain |
| BridgeProofs.NextInv | Fomalhaut/src/Server.jl:287-418 | every step of every part keeps the invariant that ties channels, handles, phases, wake flags and loops together |
| BridgeTheorems.ReachableInv | Fomalhaut/src/Server.jl:287-418 | the invariant holds in every reachable state |
| BridgeTheorems.NoLostWakeup | Fomalhaut/src/Server.jl:348-377 | while the registered loop waits with its flag clear, the polled channel is empty, or a task that was sent has its notification still to come and aimed at this loop, or a stop has yet to issue its own wake |
| BridgeTheorems.Conservation | fomalhaut_rs/src/transport/http_server.rs:107-136 | every request is in exactly one place: unsent, queued, dropped with its channel, held by a handler, replied to, or given up by its handler; it is replied to exactly when a reply exists |
| BridgeTheorems.LiveChannel | fomalhaut_rs/src/ffi/server.rs:125-142 | a stored sender pairs with the stored receiver; what was sent is what was polled followed by what is queued, without repetition and at most 64 of them; every other channel is empty |
| BridgeTheorems.RunGrows | Fomalhaut/src/Server.jl:209-285 | over every run, what was sent, polled, dropped and handed out only grows at its end, and no reply is replaced |
| BridgeTheorems.OwnReply | fomalhaut_rs/src/transport/http_server.rs:132-135 | an answered connection has the reply given through its own handle, the only one its request ever has, and that reply stands in every continuation |
| BridgeReplies.ReceivedExactly | fomalhaut_rs/src/transport/http_server.rs:135 | a waiting connection receives its reply exactly if there is one, fails exactly if its task was dropped with its channel, and goes on waiting otherwise |
| BridgeReplies.ReplyArrives | fomalhaut_rs/src/transport/http_server.rs:127-136 | a waiting connection with a reply there has that very reply at the end of every continuation in which it receives and is not cancelled |
| BridgeReplies.HandlerReplyArrives | Fomalhaut/src/Server.jl:219-270 | and so when its running handler replies, with any response |
| BridgeReplies.SentRequestWaits | fomalhaut_rs/src/transport/http_server.rs:127-136 | a request sent to a server that stays up is given a handle and its connection waits for the reply or has it, whatever happens in between |
| BridgeReplies.AnswerIsReached | fomalhaut_rs/src/transport/http_server.rs:107-136 | for every response there is a run from the start in which a request is answered with it |
| BridgeReplies.SenderTaken | fomalhaut_rs/src/transport/http_server.rs:127-130 | a request takes the stored sender, and fails when there is none |
| BridgeReplies.SentExactly | fomalhaut_rs/src/transport/http_server.rs:132 | sending fails when the receiver is gone, waits while 64 tasks are queued, and otherwise puts the task last |
| BridgeReplies.NotifiedExactly | fomalhaut_rs/src/runtime/state.rs:95-103 | the notifier is loaded as it is stored, and firing it sets the flag of its condition and no other |
| BridgeReplies.CancelledExactly | fomalhaut_rs/src/transport/http_server.rs:127-135 | a connection is cancelled while it has not sent or while it waits for the reply, and at no other time |
| BridgeTheorems.CompletedOnce | fomalhaut_rs/src/ffi/server.rs:357-404 | in the bridge, completing a handle has an effect only while its request has no reply |
| TaskHandler.TryTask | Fomalhaut/src/Server.jl:219-256 | the try block raises what its first failing call raises, and sends its one reply exactly when nothing raises |
| TaskHandler.HandleTask | Fomalhaut/src/Server.jl:219-270 | with the recovery after it, the replies sent are the specified ones |
| TaskHandler.RepliedAtMostOnce | Fomalhaut/src/Server.jl:219-270 | whatever raises, a task is replied to at most once, and not at all exactly when a call of the try block and a call of the recovery both raise |
| TaskHandler.RepliesExactly | Fomalhaut/src/Server.jl:219-270 | the reply is 404 without a handler, what the handler returned with its defaults when nothing raises, the message of a bad request with 400, and 500 for everything else, by the first call that raises |
| TaskHandler.OddStatuses | Fomalhaut/src/Server.jl:242-256 | a status that does not fit 16 bits is answered with 500, and a status of 0 reaches the client as 200 |
| TaskHandler.RequestReplied | Fomalhaut/src/Server.jl:219-270 | in the bridge a running handler's request has no reply yet, and gets this one exactly when one of the two blocks goes through |
| TaskHandler.TaskAnswered | Fomalhaut/src/Server.jl:219-270 | when one of the blocks goes through, the waiting connection has that reply in the end |
| BridgeLiveness.ServeIsNeverRefused | Fomalhaut/src/Server.jl:301-341 | a serve that passed the running check never meets a Rust side that is still up |
| BridgeLiveness.StopWaitsForHandlers | Fomalhaut/src/Server.jl:393-418 | a stop returns exactly when no started handler is still at work |
| BridgeCalls.ServeBringsUp | Fomalhaut/src/Server.jl:301-346 | a serve that can bind has the server up at its end, with a new registered condition, a new loop and a new empty channel |
| BridgeCalls.ServeFails | fomalhaut_rs/src/ffi/server.rs:184-192 | a serve that cannot bind ends with the server down, and can be called again |
| BridgeCalls.StopTakesDown | Fomalhaut/src/Server.jl:393-418 | from every state a stop takes down sender, notifier and running flag, leaves the receiver, wakes the registered condition and no other, and returns at once exactly when no started handler is at work |
| BridgeCalls.InterruptEnds | Fomalhaut/src/Server.jl:378-388 | an interrupt ends a started loop at any point and touches nothing else |
| BridgeLiveness.StoppedLoopExits | Fomalhaut/src/Server.jl:348-377 | after a stop's wake and until the next serve, the loop has ended after five steps of its own, under every interleaving |
| BridgeLiveness.WaitingTaskIsPolled | Fomalhaut/src/Server.jl:349-371 | while the server is up and its loop is awake, a task with p others before it is polled within 5 + 3p steps of the loop, under every interleaving |
| BridgeLiveness.SentTaskIsPolled | fomalhaut_rs/src/transport/http_server.rs:127-133 | a task behind at most p others is polled once a pending sender has loaded and fired the notifier and the loop has taken 5 + 3p more steps, whatever else happens in between |
| BridgeLiveness.EverySentTaskIsPolled | fomalhaut_rs/src/transport/http_server.rs:127-133 | every task that was sent to a server that stays up is polled within 194 steps of the loop after its own connection has fired |
| BridgeLiveness.AwakeOrWakeComing | Fomalhaut/src/Server.jl:373-375 | with a task waiting on a server that is up, the loop is awake or such a sender exists |
| BridgeRestart.StrandedForever | Fomalhaut/src/Server.jl:373-375 | a stranded loop stays waiting in every continuation without an interrupt |
| BridgeRestart.StrandableExactly | Fomalhaut/src/Server.jl:393-418 | after a stop has returned, some continuation strands the old loop exactly when that loop has not ended |
| BridgeRestart.StopCanReturnFirst | Fomalhaut/src/Server.jl:287-418 | a reachable state has the stop returned and the loop not ended |
| BridgeLateStarts.LateStartExactly | Fomalhaut/src/Server.jl:353-371 | after a stop has returned and until the next serve, a loop can start a handler exactly when it has a task already, or is past its running check and a task waits or a connection holds a sender |
| BridgeLateStarts.LateStartHappens | Fomalhaut/src/Server.jl:393-418 | such a state is reached |
| RequestReader.ReadHeaders | fomalhaut_rs/src/transport/http_server.rs:464-506 | unless a read fails, the phase ends as its own reads determine when they are replayed, and it reads nothing after its end |
| RequestReader.HeaderPhaseExact | fomalhaut_rs/src/transport/http_server.rs:470-499 | for all reads: the first blank line is accepted exactly when they reach it and none ended at the limit or beyond before it; too large is said exactly when one did, or the limit is reached and there is none; cut short exactly when the stream ends below the limit without one |
| RequestReader.ReadBody | fomalhaut_rs/src/transport/http_server.rs:533-556 | no read passes the expected length; it reports a short body only when the stream is too short |
| RequestReader.ReadWith | fomalhaut_rs/src/transport/http_server.rs:508-571 | the checks and the body phase give what the whole stream determines |
| RequestReader.ReadHttpRequest | fomalhaut_rs/src/transport/http_server.rs:464-571 | unless a read fails, the answer is the one its own reads determine, and one the stream alone allows |
| RequestReader.BodyExactly | fomalhaut_rs/src/transport/http_server.rs:520-571 | an accepted request that is not chunked has a body of exactly the length its head declares, in decimal with leading zeros and a plus sign allowed, up to 33554432; and none when the head declares no such number |
| RequestReader.BodyRefusedExactly | fomalhaut_rs/src/transport/http_server.rs:508-531 | a request is refused as too large exactly when it is not chunked and declares more than 33554432, and as chunked exactly when it is |
| Heads.ChunkedExactly | fomalhaut_rs/src/transport/http_server.rs:508-518 | chunked means that the comma-separated transfer encoding has the item chunked, in any case and with blanks around it |
| Numbers.ParseUsizeExact | fomalhaut_rs/src/transport/http_server.rs:520-524 | a text is read as n exactly when it is the decimal numeral of n, leading zeros and a plus sign allowed, below 2^64 |
| RequestReader.ChunkingIndependence | fomalhaut_rs/src/transport/http_server.rs:464-571 | reads of one stream by the reader, cut in any two ways, lead to the same answer unless the blank line ends between 65537 and 69631 |
| RequestReader.GapDependsOnCuts | fomalhaut_rs/src/transport/http_server.rs:470-499 | for every stream, reads that get its blank line refused exist exactly when it ends past 65536, and reads that get it accepted exactly when it ends by 69631 |
| RequestReader.BackScan | fomalhaut_rs/src/transport/http_server.rs:493-499 | searching from three bytes before the old end finds what searching the whole buffer finds |
| RequestReader.PeekAgrees | fomalhaut_rs/src/transport/http_server.rs:446-453 | if a peeked prefix within the limit shows a head, no later reading fails on the headers, and a request read has the identical method, path, query and headers |
| Connections.HandleConnection | fomalhaut_rs/src/transport/http_server.rs:64-104 | unless a peek or read fails, the connection is refused, upgraded, served or dropped as its peek and its reads determine, and nothing is read before a refusal or an upgrade |
| Connections.ConnectionExact | fomalhaut_rs/src/transport/http_server.rs:64-104 | refused exactly when the peek does not show a whole head that parses; otherwise the outcome is the same for all cuts of the reads, with no gap at the limit |
| Connections.PeekDecides | fomalhaut_rs/src/transport/http_server.rs:446-453 | every non-empty stream is refused if only its first byte is peeked, and some peek lets it in exactly when its head fits the limit and parses |
| Heads.UpgradeExactly | fomalhaut_rs/src/transport/http_server.rs:647-659 | an upgrade is asked for exactly when the upgrade header spells websocket and the comma-separated connection header has the item upgrade, in any case |
| RequestHead.ParseRequestHead | fomalhaut_rs/src/transport/http_server.rs:600-631 | the parser gives the head that the text determines; of two lines with one name the last counts |
| Heads.HeadOfParts | fomalhaut_rs/src/transport/http_server.rs:600-638 | the head of a text put together from a method, a target with or without a query, a version and header lines: the method in capitals, the path decoded, the query as it is, and for each name in small letters the value of its last line |
| Heads.HeadEnds | fomalhaut_rs/src/transport/http_server.rs:640-645 | such a head ends where it was put together, whatever comes behind it |
| Heads.Utf8Exact | fomalhaut_rs/src/transport/http_server.rs:603 | the test accepts exactly the encodings of sequences of characters |
| Text.TrimExact | fomalhaut_rs/src/transport/http_server.rs:619-620 | trimming takes the blanks from both ends and nothing else |
| RequestHead.HeadersEndOfPrefix | fomalhaut_rs/src/transport/http_server.rs:640-645 | a blank line found in a prefix is the stream's first, and the stream's first is found in every prefix that reaches it |
| RequestHead.HeadOfPrefix | fomalhaut_rs/src/transport/http_server.rs:600-631 | what parses in a prefix parses to the same head in the whole stream and in the exact header bytes |
| RequestHead.SerializeHeaders | fomalhaut_rs/src/transport/http_server.rs:661-670 | the loop writes one line per entry in the map's order |
| RequestHead.ParseHeaders | Fomalhaut/src/FFI.jl:58-75 | every line with a colon is an entry, cut at the first colon and trimmed; the last of a name counts |
| RequestHead.HeadersSafe | fomalhaut_rs/src/transport/http_server.rs:613-623 | names and values of an accepted head are trimmed and free of line ends, and names have no colon |
| RequestHead.HeaderRoundTrip | fomalhaut_rs/src/transport/http_server.rs:661-670 | for every accepted head and every order of its map, Julia reads back the same map |
| Routers.RouteTables.RegisterHttp | fomalhaut_rs/src/ffi/routes.rs:15-59 | accepted exactly for a non-empty method and a valid path; stored under the upper-case method and the path without one trailing slash |
| Routers.RouteTables.RegisterNative | fomalhaut_rs/src/ffi/routes.rs:101-150 | the same for a native entity |
| Routers.RouteTables.RegisterRoutes | Fomalhaut/src/Server.jl:20-54 | it succeeds exactly when every route is valid; then each handler is in the table under its normalised key with the one callback and each native route with its entity, later routes replacing earlier ones, and there are no other new keys |
| Routers.RouteTables.ClearHttp | fomalhaut_rs/src/ffi/server.rs:219 | a stop empties the handler table and leaves the native routes |
| Routers.NativeRoutesSurviveStop | fomalhaut_rs/src/ffi/server.rs:204-224 | after a stop no handler is resolved, and exactly the native routes still are |
| Routers.RouteTables.Resolve | fomalhaut_rs/src/transport/http_server.rs:154-214 | the resolution is the specified one: exact handler, exact native, native scan, handler scan, then 405 or 404 |
| Routers.RouteTables.AllowedMethods | fomalhaut_rs/src/transport/http_server.rs:769-800 | absent for an unknown path other than the root; otherwise strictly ascending and exactly the matching methods, OPTIONS, and GET for the root |
| Routers.ResolutionExact | fomalhaut_rs/src/transport/http_server.rs:154-214 | 404 exactly when no pattern fits, 405 exactly when some fits but none with the method, otherwise a route of that method and a fitting pattern, chosen by the stated precedence |
| Routers.OrderIndependenceExact | fomalhaut_rs/src/transport/http_server.rs:174-188 | a table's scan is the same for every order and every path exactly when no two of the method's patterns overlap |
| Routers.ResolutionOrderIndependent | fomalhaut_rs/src/transport/http_server.rs:174-188 | without overlaps the whole resolution is the same for every order |
| RouteOrders.ResolutionOrderExact | fomalhaut_rs/src/transport/http_server.rs:174-188 | for a method, the whole resolution is the same for every order and every path exactly when no two native patterns overlap and, wherever two handler patterns do, one native route takes all they have in common |
| Routers.AllowedListUnique | fomalhaut_rs/src/transport/http_server.rs:795-799 | the allowed list does not depend on the order of the tables |
| Routers.LessExactly | fomalhaut_rs/src/transport/http_server.rs:795-797 | the order of the list is the lexicographic one |
| Routers.AllowedWith405 | fomalhaut_rs/src/transport/http_server.rs:216-220 | with a 405 the list is non-empty and names the request's method only for OPTIONS, and for GET on the root |
| Routers.FindHandler | Fomalhaut/src/FFI.jl:247-267 | the handler of the exact key or of the first match, with that pattern's parameters; none exactly when nothing serves the path |
| Routers.ServedOnBothSides | fomalhaut_rs/src/ffi/routes.rs:40-51 | a method and path are served by the Rust table exactly when the app serves them, whatever trailing slashes there are |
| Routers.RoutersAgree | Fomalhaut/src/FFI.jl:247-267 | what Rust resolves to a handler Julia finds a handler for, and what Julia would find Rust resolves to a handler or a native route |
| Routers.RoutersPickSameRoute | Fomalhaut/src/FFI.jl:257-264 | when the app's patterns do not overlap, both sides choose the same route |
| RouteSides.SidesAgreeExactly | Fomalhaut/src/FFI.jl:247-267 | both sides choose the same route for every path and all orders exactly when, of any two routes Rust keeps apart, a native route takes all they have in common, and, where the text of one fits the other, the app spells it out with and without the trailing slash |
| RouteSides.LiteralAndParameter | Fomalhaut/src/FFI.jl:257-264 | an app with a literal and a parameter in one place, like /u/me and /u/:id, is one for which they differ |
| Dispatch.ReachesJulia | fomalhaut_rs/src/transport/http_server.rs:222-330 | a request that comes to resolution is handed to Julia exactly when Julia finds a handler for it, it is not GET with the path `/`, and its exact key has a handler or no native route serves it |
| Dispatch.ReachesNative | fomalhaut_rs/src/transport/http_server.rs:222-380 | it is handed to the native engine exactly when a native route serves it, its exact key has no handler, it is neither OPTIONS nor GET with the path `/`, and a database is connected |
| Dispatch.AnsweredExactly | fomalhaut_rs/src/transport/http_server.rs:216-330 | not found is answered exactly where no pattern fits, except for OPTIONS and GET on the root; not allowed exactly where some fits, none with the method, except for the same two |
| Dispatch.HandedOn | fomalhaut_rs/src/transport/http_server.rs:318-330 | what is handed on is the callback or the entity of a route that serves the path, of the exact key if there is one |
| Dispatch.OtherAnswersExactly | fomalhaut_rs/src/transport/http_server.rs:222-311 | exactly when the status page, the preflight answer, or that there is no database is answered |
| Dispatch.RootPathAnsweredFirst | fomalhaut_rs/src/transport/http_server.rs:300-311 | with an app that has only a handler for GET on the root, the path / is resolved to it, Julia would find it, and the status page is answered |
| Dispatch.RootHandlerRunsExactly | fomalhaut_rs/src/transport/http_server.rs:222-330 | with that app a request reaches Julia exactly when it is GET, its path has no segments, and it is not / itself |
| RoutePatterns.MatchDynamicPath | fomalhaut_rs/src/transport/http_server.rs:750-767 | the two advancing iterators decide segment-wise matching |
| RoutePatterns.MatchDynamicPathJulia | Fomalhaut/src/FFI.jl:120-143 | the Julia loop decides the same relation |
| RoutePatterns.NormalizedSegments | fomalhaut_rs/src/transport/http_server.rs:149-152 | dropping a trailing slash changes no segment |
| RoutePatterns.OverlapExact | fomalhaut_rs/src/transport/http_server.rs:750-767 | two patterns share a path exactly when they have equally many segments and no two different literals face each other |
| RoutePatterns.ExtractPathParams | Fomalhaut/src/FFI.jl:151-166 | each parameter has the value at its last position, and nothing else is bound |
| RoutePatterns.ParamsRebuildPath | Fomalhaut/src/FFI.jl:151-166 | on a match exactly the pattern's names are bound, and substituting them back gives the path's segments exactly when repeated names agree |
| RoutePatterns.FilledRouteReadsBack | Fomalhaut/src/Routing.jl:41-56 | a declared route filled with non-empty slash-free values matches and yields those values |
| RoutePatterns.RepeatedNameLosesValue | Fomalhaut/src/FFI.jl:151-166 | with a pattern like /:a/:a and two different values, substituting back does not give the path |
| WebSocketHub.RunInv | fomalhaut_rs/src/transport/websocket.rs:34-52 | the hub's invariant holds over every run |
| WebSocketHub.DeliveryOverRuns | fomalhaut_rs/src/transport/websocket.rs:34-52 | versions written to a client never decrease, all are later than its subscription, none comes more than twice, and twice only if it was published between a wake-up and its borrow |
| WebSocketHub.NothingMissed | fomalhaut_rs/src/transport/websocket.rs:34-43 | a waiting client with nothing unseen has been given the current frame last |
| WebSocketHub.FramesStayValid | fomalhaut_rs/src/ffi/server.rs:250-253 | over every run with fitting Axis payloads every published frame is a valid envelope |
| HubDelivery.RunSeparate | fomalhaut_rs/src/ffi/routes.rs:183-193 | in every run no two routes share a channel |
| HubDelivery.RegisteredApart | fomalhaut_rs/src/ffi/routes.rs:72-98 | registering a valid path gives it a new, empty channel without clients, and an invalid one changes nothing |
| HubDelivery.ConnectedTo | fomalhaut_rs/src/transport/websocket.rs:15-32 | a connection gets the plain route of its path, else its Axis route, else none, and after a stop none |
| HubDelivery.BroadcastStatusExact | fomalhaut_rs/src/ffi/server.rs:246-273 | what a broadcast is answered: the path's form first, then the frame, then the route |
| HubDelivery.BroadcastPublishes | fomalhaut_rs/src/ffi/server.rs:255-269 | an accepted frame becomes the next version of the channel of that path and changes no other, if some client receives from it, and changes nothing otherwise |
| HubDelivery.StreamPublishes | fomalhaut_rs/src/ffi/routes.rs:216-245 | the same for a stream and its own channel, with a valid frame that holds the payload |
| HubDelivery.BroadcastDelivered | fomalhaut_rs/src/transport/websocket.rs:34-52 | a client receiving from the channel of a path is sent the frame broadcast on it, as that version, by its next undisturbed turn |
| HubDelivery.StreamDelivered | fomalhaut_rs/src/transport/websocket.rs:34-52 | and the frame of its own stream |
| HubDelivery.ClientEnds | fomalhaut_rs/src/transport/websocket.rs:44-51 | a client whose write fails, or that goes away, holds no receiver and is written to no more |
| WebSocketHub.MessagesValid | fomalhaut_rs/src/transport/websocket.rs:36-48 | over every such run every message sent to a client is non-empty and a valid envelope |
| WebSocketHub.LimitIsSharp | fomalhaut_rs/src/ffi/routes.rs:228-244 | for every payload there is a run that delivers its frame, valid exactly when the payload is shorter than 2^32 |
| Envelope.BuildEnvelopeV1 | Fomalhaut/src/Server.jl:1-18 | refused exactly from 2^32 bytes on; otherwise the vector filled in place is the specified layout and validates |
| Envelope.BuildAxisFrame | fomalhaut_rs/src/ffi/routes.rs:216-244 | the inline builder makes the same layout with type 1 and no flags, valid exactly when the length cast loses nothing |
| Envelope.ParseEncode | fomalhaut_rs/src/protocol/envelope.rs:23-58 | parsing a built frame returns its fields, and it validates exactly when the payload fits |
| Envelope.EncodeParse | fomalhaut_rs/src/protocol/envelope.rs:23-58 | every valid frame is the build of its own parsed fields and payload |
| Envelope.EncodeInjective | Fomalhaut/src/Server.jl:1-18 | two frames are equal only with equal fields and payloads |
| Envelope.FrameBytes | Fomalhaut/src/Server.jl:1-18 | the bytes of a built frame: the version byte 1, each field with its low byte first, then the payload |
| PercentCoding.PercentDecode | fomalhaut_rs/src/transport/http_server.rs:573-598 | the index loop equals the recursive specification, never grows its input and leaves input without percent signs alone |
| PercentCoding.EscapeMeaning | fomalhaut_rs/src/transport/http_server.rs:573-598 | in both decoders an escape is the byte its two digits spell, in either case; where one is no digit, the percent sign stays in a path and is an error in a query |
| PercentCoding.DecodeEncode | fomalhaut_rs/src/transport/http_server.rs:573-598 | it undoes every encoding in which the percent sign is escaped, with digits of either case and a free choice at every other character |
| PercentCoding.DecodeQueryComponent | Fomalhaut/src/FFI.jl:177-202 | the scanning loop equals its specification and fails exactly on a percent sign that starts no escape |
| PercentCoding.QueryDecodeEncode | Fomalhaut/src/FFI.jl:177-202 | it undoes every encoding in which the percent and plus signs are escaped, a space being itself, an escape or a plus sign at each occurrence |
| PercentCoding.DecodersAgree | Fomalhaut/src/FFI.jl:177-202 | the two decoders give the same bytes exactly on well-formed input without a plus sign |
| QueryString.ParseQueryString | Fomalhaut/src/FFI.jl:204-220 | fails exactly when a part that counts has a bad escape; otherwise the last part of a key decides, and empty keys are dropped |
| QueryString.QueryRoundTrip | Fomalhaut/src/FFI.jl:204-220 | for every map with non-empty keys, every order of it and every encoding of each key and value that escapes the four special characters, parsing undoes encoding |
| QueryString.ExtractQueryPair | fomalhaut_rs/src/database/handlers.rs:176-181 | the first part that is the key, an equals sign and a value; none exactly when no part is |
| QueryString.LookupsAgree | fomalhaut_rs/src/database/handlers.rs:176-181 | for every query without escapes and every key free of = and &, fast path and parser agree exactly when the key does not occur or its first carrying part gives the value of the last part keyed by it |
| QueryString.LookupsOnSingleKey | fomalhaut_rs/src/database/handlers.rs:176-181 | where the key occurs at most once, they agree exactly when it does not stand alone |
| QueryString.LookupsOnKeyAlone | fomalhaut_rs/src/database/handlers.rs:176-181 | a query that is just the key: the fast path finds nothing, the parser the empty value |
| QueryString.LookupsOnRepeatedKey | Fomalhaut/src/FFI.jl:204-220 | on key=first&key=second the fast path gives the first value and the parser the second |
| SqlStatements.ValidateIdentifier | fomalhaut_rs/src/database/handlers.rs:6-21 | accepts exactly non-empty names of the letters, digits and the underscore, and says which of the two reasons refuses another |
| SqlStatements.BuildStatement | fomalhaut_rs/src/database/handlers.rs:23-167 | a statement exists exactly for a valid table, known method, present id and usable body; its text is that of a valid query over the table, its columns are the keys and its values those of the members, kind by kind, with the id last; a page has the limit and offset of the query string, at most 10000; and a refusal names the first reason |
| SqlStatements.BuildInsert | fomalhaut_rs/src/database/handlers.rs:94-123 | the three lists grown together give the text of the insertion and the values of the members, kind by kind; a refusal names the first bad key |
| SqlStatements.ExtractIdExact | fomalhaut_rs/src/database/handlers.rs:169-174 | the id is what the path ends in behind its last slash, exactly when that is made of digits |
| SqlStatements.PageParameterRead | fomalhaut_rs/src/database/handlers.rs:56-63 | a paging parameter is the number of the first part that carries its key, and the default when there is none or it is no number |
| SqlStatements.BuildUpdate | fomalhaut_rs/src/database/handlers.rs:128-157 | the same for the update, with the id bound last |
| SqlStatements.InsertExact | fomalhaut_rs/src/database/handlers.rs:116-121 | an INSERT text parses to a query exactly when it is that valid query's text |
| SqlStatements.UpdateExact | fomalhaut_rs/src/database/handlers.rs:152-156 | an UPDATE text parses to a table and columns exactly when it is their text |
| SqlStatements.PageExact | fomalhaut_rs/src/database/handlers.rs:65-71 | a listing text parses to table, limit and offset exactly when it is their text |
| SqlStatements.ByIdExact | fomalhaut_rs/src/database/handlers.rs:39-43 | a text by id parses to a table exactly when it is that table's |
| SqlStatements.MarksAreArity | fomalhaut_rs/src/database/handlers.rs:94-160 | a valid query's text has one placeholder for every value it expects |
| SqlStatements.RenderedInjective | fomalhaut_rs/src/database/handlers.rs:23-167 | no two valid queries of any kind share a text |
| Dictionaries.CollectedMeaning | Fomalhaut/src/FFI.jl:58-75 | a dictionary filled by inserting in order fails exactly on a bad entry and otherwise holds the last value of each key and no other key |
| Dictionaries.LastWinsUnique | Fomalhaut/src/FFI.jl:151-166 | those values determine the dictionary |

## Left out

- Sockets, runtimes, the WebSocket handshake, the execution of SQL and the conversion of rows to JSON: foreign code. JSON bodies come parsed, with their members in an arbitrary order.
- Pointers, allocation, lock poisoning and panics: handles are numbers and buffers are sequences.
- Overlapping starts and stops: one caller starts and stops the server, as the running flag of `serve` intends.
- The poll loop of `serve`, `stop_server!` and the handlers are steps of a machine and not methods, because they interleave with each other and with the connection tasks; only the exported Rust functions they call are methods as well.
- The notifier's callback and handle are two atomics in the code; here they are loaded, stored and cleared as one.
- TaskBridge.Runtime.ServerStop: the clearing of the route tables is modelled apart from it, by Routers.RouteTables.ClearHttp and by the hub's Stop step; the allowed origins are not modelled.
- Routers.RouteTables.RegisterRoutes: the WebSocket and Axis routes registered by the same function are steps of the hub, and not part of its contract.
- RequestReader.ReadHeaders: the read buffer is a sequence that grows by what was read; enlarging it before a read and cutting it afterwards is not shown.
- RequestHead.ParseRequestHead: white space is ASCII white space only; the strict UTF-8 test is modelled on bytes.
- PercentCoding.PercentDecode: the result is the decoded bytes; replacing invalid UTF-8 in them is not modelled.
- PercentCoding.DecodeQueryComponent: an escape is two hexadecimal digits; Julia's `tryparse` also accepts some digit pairs with white space or a sign.
- TaskHandler.HandleTask: a call that sends a reply is taken to raise before the reply is sent, and an interrupt between two calls is not modelled; a status that is not an integer raises like any other conversion.
- Routers.FindHandler: path and query parameters stay text; their conversion to declared types is not modelled.
- SqlStatements.BuildStatement: numbers beyond 64 bits become reals without rounding.
- Writing responses, their headers, cross-origin handling and the joining of the allowed methods into one header value.
- The pace of Axis streams and of WebSocket senders; their threads appear as publishers that may publish at any time.
- Macro rewriting in `Fomalhaut/src/Routing.jl`; routes are given as they are registered.
