# zqrpc: a Dafny model

zqrpc carries protocol-buffer service calls over ZeroMQ. A client (`RpcChannel`) numbers its requests,
sends as many as it likes and collects the replies in any order; a server (`RpcServer`) joins a ROUTER
to a DEALER with a proxy and lets any number of worker threads (`RpcWorker`) answer; a `protoc` plugin
generates the service and stub classes. This project models the protocol from the sockets' parts up
to whole systems, the shutdown of a server, and the plugin's encoders, and proves what each promises.

`dafny verify dfyconfig.toml` checks all of it.

## How the model is built

Code that changes state is modelled by classes and loops in the form the C++ has, each method proved
against a function on values; the theorems about runs, interleavings and permutations are about those
functions, so they hold of the methods.

| file | models |
|---|---|
| `Basics.dfy` | options and associativity of lists, for every other file |
| `LexicalCast.dfy` | `lexical_cast` and `atoi`, on every string |
| `ZSocket.dfy` | multipart framing: class `ZSocket`, and what is on the wire |
| `ChannelState.dfy` | one channel as a value: counter, `replylist_`, controllers; `SendStep` and `Deliver` |
| `RpcChannel.dfy` | classes `ZController` and `RpcChannel`, proved against `SendStep` and `Deliver` |
| `Confluence.dfy`, `ReceiveOrder.dfy`, `Pipelining.dfy` | order of replies; order of receives, however the replies arrive between them; N sends and N receives against N calls |
| `ChannelRuns.dfy` | whole runs of a channel |
| `RpcWorker.dfy` | class `RpcWorker` and the function from request to reply |
| `RpcServer.dfy` | class `RpcServer`: method table, start and close; generated dispatch |
| `RpcSystem.dfy`, `RpcGuarantees.dfy` | clients, proxy and workers as a step system built from `SendStep`, `Deliver` and `ReplyTo` |
| `Shutdown.dfy`, `StopTurns.dfy` | the closing thread (the script `RpcServer.Close` is proved to follow), proxy and workers as a step system; which runs stop every worker |
| `CppLiteral.dfy`, `Names.dfy`, `HeaderNesting.dfy` | the plugin's descriptor blob, names, and the braces and functions of the header |

Characters stand for bytes. The application (parsing, handlers, serialising) is a table of arbitrary
functions; the network is an environment that may delay, reorder and lose messages and that hands a
request to any idle worker; the clock is any non-decreasing sequence of readings. Identities are
distinct because the clients of a system are a map; the code takes them from thread ids
(`src/RpcChannel.cc:46`).

## Where the code departs from what it promises

* **Error text.** `src/RpcChannel.cc:131` lets only messages of four frames through, and line 143 then
  reads the error text with `frames.at(4)`, which is always out of range. The worker puts the text at
  index 3. The exception leaves `ZRecvMethod` after the message was consumed, so a failed call stays
  pending for ever. The index is a parameter of the model (`TEXT_INDEX_READ` = 4 as the code stands,
  `TEXT_INDEX_SENT` = 3). Safety is proved for both. For completion the exact condition is proved: as
  the code stands the calls that complete are those whose method does not fail
  (`CompletesUnlessError`, `EveryRequestCompletes`); with index 3 all complete.
* **Order of receives.** `README.md:70-71` promises that it need not match the order of sends. A receive
  reads as many of the replies as have arrived by the time it stops, and later receives read the others;
  the theorems are about every order of receives and every such way for the replies to arrive. For what
  the channel is left with the promise holds of the code, errors or not (`ReceivesInAnyOrder`,
  `SendsThenReceives`), and receives cut short by their deadline put off what they do not read and lose
  nothing (`ReceivesPutOff`, `CutShortMadeUp`). What receives in time return is always what calls one after
  the other return if and only if no reply makes a call throw or every reply does (`OrderNeverShowsIff`):
  a failed call's reply throws out of whichever receive happens to read it. `OrderShowsInReturns` is a
  pair of replies where receiving for 1 and then for 2 hands over the payload of 2, and receiving for 2
  and then for 1 does not.
* **Ids that are not numbers** make `lexical_cast` throw out of `ZRecvMethod` in the same way.
* **Errors thrown with code 0** reach the client as a success whose payload is the error text. The model
  keeps this, so no assumption about handlers is needed.
* **Sending a waiting controller again** breaks the one-to-one relation between pending ids and waiting
  controllers; `SendKeepsBijection` gives the exact condition under which a send keeps it.
* **Stop messages** travel through the same DEALER as requests, and a request handed out among them shifts
  the turn by one. A run stops every worker, and lets `Close` return, if and only if every stop message
  goes to a worker that had none (`StopsEveryWorkerIff`); as long as nobody disconnects, if and only if the
  turns of the stop messages are distinct modulo the number of workers (`StopsEveryWorkerByTurns`). One
  request in between strands a worker (`SkippedStrands`, `OneRequestBetween`).
* **Unpadded hex** in `FilenameIdentifier` lets two names share an identifier. The names that share theirs
  with another are exactly those with a control byte that runs into a hex digit and those with a
  non-alphanumeric byte from 0x10 on, such as a dot (`SharesIdentifier`). Names without control bytes never
  share one among themselves (`IdentifiersDiffer`).
* **An empty blob** would be printed with no string literal at all (`BlobRoundTrip`).
* **Qualified enum names** outside any message lack the leading `::` that message names have
  (`EnumLikeMessage`).
* The repository's own README speaks of stopping a server with `Stop()`; the code has `Close`.
* A request whose `ZRecvMethod` ran out of time stays `ZRC_WORKING` and pending; `ZRC_TIMEDOUT` is never
  set. A refused send uses up an id and reports `ZEC_INVALIDHEADER` whatever the reason was.

## Model

| member | source | states |
|---|---|---|
| `RpcGuarantees.Correlation` | src/RpcChannel.cc:131-149 | in every reachable state, for any clients, workers and interleaving with losses, a controller that asked and stopped waiting holds the bytes its own method's serialiser made of the response its call returned for the opcode and bytes it sent last, or the error of the way in which that went wrong; no other controller is Ready |
| `RpcGuarantees.ReadyHoldsOwnResponse` | src/RpcWorker.cc:87-100 | if the method parses what was sent, returns a response and serialises it, its controller is Ready with exactly those bytes |
| `RpcGuarantees.OkIffSucceeded` | include/zqrpc/ZController.hpp:62-64 | in every reachable state, ok() on a controller whose request no longer waits means that its method parsed the request and either returned a response that could be serialised or threw an error with the success code |
| `RpcGuarantees.Conservation` | src/RpcWorker.cc:73-107 | in every reachable state a pending request has exactly one copy, of itself or its reply, among queues, hands, inboxes and lost messages; every other id has none |
| `RpcGuarantees.NothingDiscarded` | src/RpcChannel.cc:130-139 | no message the system carries is ever dropped by a client as malformed, rogue or unknown |
| `RpcGuarantees.WhoCompletes` | src/RpcChannel.cc:141-149 | the step behind `EveryRequestCompletes`, from the loss-free invariant, which already says that failed calls wait: at rest after a loss-free run with at least one worker, the controllers still waiting are exactly those whose method failed while the text is read at index 4; with index 3 there are none |
| `RpcGuarantees.EveryRequestCompletes` | src/RpcChannel.cc:109-150 | from an initial state, over any loss-free run and any interleaving that comes to rest, the calls still waiting are exactly those whose method fails (no such method, unparsable, thrown, not serialisable) while the text is read at index 4 |
| `RpcGuarantees.RestMeansLost` | src/RpcServer.cc:171-182 | when nothing can move, a request that still waits was lost: clients, proxy and workers never get stuck |
| `RpcGuarantees.RestIsReached` | src/RpcServer.cc:171-182 | from any state the number of steps without new requests is bounded |
| `RpcGuarantees.ForwardDecreases` | src/RpcServer.cc:171-182 | taking, answering, routing and reading each shrink the work that is left |
| `RpcGuarantees.RunLossFree` | src/RpcChannel.cc:142-144 | in a run without losses the only messages that vanish are error replies that made a receive throw |
| `RpcSystem.StepKeeps` | src/RpcChannel.cc:58-154 | every step, losses included, keeps books, authenticity and conservation |
| `RpcSystem.RunKeeps` | src/RpcChannel.cc:58-154 | so does every run |
| `RpcSystem.InitInv` | src/RpcChannel.cc:44-51 | any idle system satisfies the invariant |
| `RpcSystem.AnswerIsReply` | src/RpcWorker.cc:73-107 | the worker answers every genuine request, and under the same identity and id |
| `RpcSystem.ReadFacts` | src/RpcChannel.cc:131-148 | what a client reads answers a pending request of its own, and its channel classifies it as that request's outcome |
| `RpcSystem.SendConserves` | src/RpcChannel.cc:69-81 | a send of any outcome adds one copy exactly when it adds one pending id |
| `RpcSystem.ReadConserves` | src/RpcChannel.cc:131-149 | a read removes the copy and the pending id together, or moves the copy to the lost ones and keeps the id |
| `RpcSystem.SendRecords` | src/RpcChannel.cc:69-94 | a send keeps every pending id on record as what its controller last asked |
| `ChannelState.SendKeepsBijection` | src/RpcChannel.cc:58-95 | a send, successful or failed, keeps the bijection between pending ids in 1..counter and waiting controllers if and only if the controller was not waiting and the counter does not wrap under a pending id |
| `ChannelState.DeliverKeepsBijection` | src/RpcChannel.cc:131-149 | any received message, good, malformed, rogue or throwing, keeps it |
| `ChannelState.DeliverAllKeepsBijection` | src/RpcChannel.cc:109-150 | so does any batch of messages |
| `ChannelState.RogueTestIsHarmless` | src/RpcChannel.cc:135-139 | with the bijection, the test against the counter changes the fate of no message |
| `ChannelState.ErrorRepliesThrow` | src/RpcChannel.cc:131-144 | index 4 is out of range for every message let through: a pending request completes if and only if its code reads as 0, otherwise the receive throws; with index 3 it completes |
| `Confluence.DrainOrderIrrelevant` | src/RpcChannel.cc:109-150 | two permutations of a batch with distinct ids leave the same table and the same controllers |
| `Confluence.DeliverCommutes` | src/RpcChannel.cc:131-149 | two messages with different ids commute |
| `Confluence.PipelinedIsSynchronous` | plugin/ServiceGenerator.cc:290-312 | sending a batch and draining the replies in any order leaves everything but `reqno_` as one call after the other does |
| `Confluence.EraseMeans` | include/zqrpc/ZController.hpp:53-57 | what "everything but `reqno_`" means: equal counter, equal table, and equal state, error and payload of every controller |
| `Confluence.SendPastReply` | src/RpcChannel.cc:69-81 | a send and the delivery of another request's reply commute, up to `reqno_` |
| `ReceiveOrder.ZRecvMethodReceives` | src/RpcChannel.cc:109-154 | every call of the receive method, by its contract alone, is a receive of this file that gets to read the messages it took: same channel, same messages left, same return; it is in time if and only if it threw, ended with its controller done, or read everything |
| `ReceiveOrder.ReceivesInAnyOrder` | README.md:70-71 | for every order of receives in time and every number of messages each gets to read, at either text index and whichever replies make receives throw: if each request that has a reply is received for, the channel is left as if every reply had been filed |
| `ReceiveOrder.EnoughAfterFirst` | src/RpcChannel.cc:109-150 | the invariant behind it: after each receive there are still as many receives that will find no reply as there are replies that throw, and when there are no more, every other reply has a receive of its own |
| `ReceiveOrder.ReceivesPutOff` | README.md:70-72 | whatever the messages and wherever receives are cut short, what was not read is put off: filing it leaves the channel as if every message had been filed |
| `ReceiveOrder.CutShortMadeUp` | README.md:70-72 | after any receives cut short anywhere, receives in time for what is still to come leave the channel as if none had been cut short |
| `ReceiveOrder.ReturnsAreFinal` | src/RpcChannel.cc:113-154 | in any order and however the replies arrive, each call in time throws or returns what its controller holds when all replies are filed |
| `ReceiveOrder.ReturnsFinalOrNothing` | src/RpcChannel.cc:113-154 | a call that may be cut short throws, returns that, or returns nothing |
| `ReceiveOrder.ThrowsIffErrorReply` | src/RpcChannel.cc:142-144 | in any order and however the replies arrive, if each request that has a reply is received for, exactly as many calls throw as replies carry an error whose text is looked for behind the last frame |
| `ReceiveOrder.ThrowsIffErrorArrived` | src/RpcChannel.cc:142-144 | once all replies have arrived and somebody waits, some call throws if and only if there is such a reply, whomever the calls are for |
| `ReceiveOrder.OnceArrived` | src/RpcChannel.cc:109-154 | the channel left, the returns and the number of throws for receives that find every reply arrived |
| `ReceiveOrder.AllArrivedInTime` | src/RpcChannel.cc:109-120 | receives that find every reply arrived are all in time |
| `ReceiveOrder.OrderShowsInReturns` | src/RpcChannel.cc:143 | two replies for which the order of receives decides whether the payload is handed over, though the channel is left the same |
| `ReceiveOrder.CompletesUnlessError` | src/RpcChannel.cc:131-149 | as the code stands, receives in any order, however the replies arrive, complete every request if and only if no reply carries an error code |
| `ReceiveOrder.CompletesWithTextIndexSent` | src/RpcWorker.cc:103-106 | with the text read where the worker puts it they always do |
| `ReceiveOrder.ErrorNeverCompletes` | src/RpcChannel.cc:142-144 | as the code stands, a request answered with an error never leaves the table, whatever is received in whatever order |
| `ReceiveOrder.ReceivesWithoutError` | src/RpcChannel.cc:109-150 | with requests named twice or never made among the messages: if none makes a receive throw, receives in any order, however the messages arrive, leave the same state and complete every request that is answered |
| `ReceiveOrder.PendingAfter` | src/RpcChannel.cc:138-149 | the table afterwards is the table before without exactly the requests that some message completes |
| `Pipelining.SendsThenReceives` | README.md:70-71 | N sends followed by receives for them, in any order, however the replies arrive between the receives and whichever carry errors, leave everything but `reqno_` as N calls one after the other |
| `Pipelining.OrderNeverShowsIff` | README.md:70-71 | receiving once for each of N requests returns what the N calls return, in every order and however the replies arrive, if and only if no reply makes a call throw or all of them do |
| `Pipelining.OrderNeverShowsIffArrived` | README.md:70-71 | the same condition decides it for receives that find every reply arrived |
| `Pipelining.SameReturns` | plugin/ServiceGenerator.cc:290-312 | exactly as many receives throw as calls, one for each reply that throws; if none does, every receive returns exactly what the call for its controller returns |
| `Pipelining.ReturnsLikeCalls` | plugin/ServiceGenerator.cc:290-312 | even with errors about, a receive in time throws or returns what its call returns if that does not throw |
| `ChannelRuns.AtMostOnce` | src/RpcChannel.cc:138-149 | over any run that takes no more ids than there are an id completes at most once and every later message with that id is dropped |
| `ChannelRuns.NeverAgain` | src/RpcChannel.cc:69-81 | an issued id that is not pending never becomes pending again |
| `ChannelRuns.KeepsResult` | src/RpcChannel.cc:138-149 | a controller that is not waiting keeps everything it holds until its own next send, whatever else is sent and received |
| `ChannelRuns.RunKeepsBijection` | src/RpcChannel.cc:58-154 | any run whose sends respect the rule keeps the bijection |
| `ChannelRuns.CompletedByOwnReply` | src/RpcChannel.cc:138-149 | a request gone from the table was completed by a message with its own id, whose content its controller holds |
| `ChannelRuns.PendingIsOld` | src/RpcChannel.cc:131-149 | receiving only shrinks the table and leaves the controllers of what is still pending untouched |
| `RpcChannelClass.RpcChannel.constructor` | src/RpcChannel.cc:44-51 | a new channel has no pending request and ids start after 0 |
| `RpcChannelClass.RpcChannel.ZSendMethod` | src/RpcChannel.cc:58-95 | the whole new state for each way a send can end: the id taken, the controller waiting under it or failed with code 1, 5 or 7 by what the socket did, and the one message that goes out, with blank, id, opcode and data frames |
| `RpcChannelClass.RpcChannel.Fail` | src/RpcChannel.cc:82-94 | a failed send sets code and state of its controller and nothing else |
| `RpcChannelClass.RpcChannel.SendRequest` | src/RpcChannel.cc:69-75 | takes the next id and sends blank, id, opcode and data under it, or nothing |
| `RpcChannelClass.RpcChannel.Enlist` | src/RpcChannel.cc:78-81 | the controller waits under the id just used |
| `RpcChannelClass.RpcChannel.Conclude` | src/RpcChannel.cc:75-94 | after the socket has taken or refused the message: the controller waits, or has code 1, 5 or 7, and the table is otherwise as it was |
| `RpcChannelClass.RpcChannel.Settle` | src/RpcChannel.cc:141-148 | the controller gets result or error of its reply, or nothing when the text is looked for behind the last frame |
| `RpcChannelClass.RpcChannel.FileReply` | src/RpcChannel.cc:130-149 | filing one message changes table and controllers as `Deliver` says, whoever the controller belongs to, and throws exactly when the message is classified so |
| `RpcChannelClass.RpcChannel.ReceiveOne` | src/RpcChannel.cc:122-131 | one turn of the loop consumes the first arrival and files it, or changes nothing |
| `RpcChannelClass.RpcChannel.Await` | src/RpcChannel.cc:110-119 | the loop goes on only with a message waiting or expected; it stops only with its controller done or the time spent; the wait ends by the deadline |
| `RpcChannelClass.RpcChannel.Drain` | src/RpcChannel.cc:109-150 | terminates; the final state is the fold of `Deliver` over exactly the arrivals read, no message but the last threw, every wait is non-negative and ends by the deadline; a call not cut short leaves nothing waiting |
| `RpcChannelClass.RpcChannel.ZRecvMethod` | src/RpcChannel.cc:97-154 | the fold of the loop; with a positive timeout every wait ends at start + timeout and a call that returns with its controller still waiting has spent it, with any other timeout the same at 60000; the payload is parsed exactly when the controller is ready |
| `RpcChannelClass.FoldedOneMore` | src/RpcChannel.cc:109-150 | reading one more arrival extends the fold by one delivery |
| `RpcChannelClass.ZController.constructor` | include/zqrpc/ZController.hpp:59 | a new controller is unset, without error, its number at the largest size |
| `RpcChannelClass.DealerSocket.Poll` | include/zqrpc/ZSocket.hpp:145-154 | the environment's side of a poll: ready if and only if a message arrives within the timeout |
| `RpcChannelClass.DealerSocket.NonBlockingRecv` | include/zqrpc/ZSocket.hpp:131-143 | a whole message or nothing consumed |
| `RpcWorkerClass.RpcWorker.Run` | src/RpcWorker.cc:62-115 | with replies enabled the output is, in order, one reply for each five-frame message before the first TERMINATE and nothing else, each with its request's first three frames and the code and data its own method's parts give; with noreply nothing; it stops exactly at a TERMINATE |
| `RpcWorkerClass.RpcWorker.Handle` | src/RpcWorker.cc:83-106 | the two answer frames for every way a call can end, by the method's own parse, call and serialise |
| `RpcWorkerClass.RpcWorker.Answer` | src/RpcWorker.cc:75-106 | popping opcode and data and pushing the answer yields the reply to the request |
| `RpcWorkerClass.OwnResponse` | src/RpcWorker.cc:87-100 | a request that parses, returns and serialises is answered with code "0" and exactly the serialised response |
| `RpcWorkerClass.OtherEnds` | src/RpcWorker.cc:84-106 | the other four ends: "3" for an unknown method, "6" for what cannot be parsed or serialised, the thrown error's own code and text |
| `RpcWorkerClass.ReplyByParts` | src/RpcWorker.cc:73-107 | exactly the five-frame messages have a reply, and it is the right one |
| `RpcWorkerClass.WhereRequests` | src/RpcWorker.cc:63-107 | the replies over any input stand for its five-frame messages one by one, in order |
| `RpcWorkerClass.StopMessage` | src/RpcServer.cc:198-200 | a worker stops at exactly what the stop messages are once the ROUTER has put an identity in front |
| `RpcWorkerClass.ReplyShape` | src/RpcWorker.cc:73-107 | identity, blank and id come back unchanged; the code is "0" exactly on success or an error of code 0 |
| `RpcWorkerClass.ReplyIsUnderstood` | src/RpcChannel.cc:131-148 | request, ROUTER prefix, worker, ROUTER strip and classification compose to the outcome of the call, for both text indices |
| `RpcWorkerClass.RepliesOfBoth` | src/RpcWorker.cc:63-115 | replies over two stretches of input are the replies over each in turn |
| `RpcServerClass.DispatchPreservesMeaning` | src/RpcWorker.cc:83-93 | calling stub X answers exactly as function X of the first registered owner of the full name, by that function's own parse, call and serialise, through stub index, opcode, table, lookup and generated switch; unregistered names yield no-such-method |
| `RpcServerClass.FirstOwnerWins` | src/RpcServer.cc:80-94 | after any registrations the table holds exactly the owned names, each with its first owner and the position of the name |
| `RpcServerClass.OwnerIsFirst` | src/RpcServer.cc:90-92 | the owner of a name is the first service that has it |
| `RpcServerClass.SameSplit` | src/RpcServer.cc:88 | a full name determines service and method |
| `RpcServerClass.RpcServer.constructor` | src/RpcServer.cc:62-68 | a new server is not started and knows nothing |
| `RpcServerClass.RpcServer.EndPoint` | src/RpcServer.cc:75-78 | one more endpoint to bind |
| `RpcServerClass.RpcServer.RegisterService` | src/RpcServer.cc:80-94 | the table after registering a service: names already taken keep their owner |
| `RpcServerClass.RpcServer.Start` | src/RpcServer.cc:108-132 | what a start adds, place by place: every endpoint bound in order, the internal sockets, each new worker started, and the proxy last |
| `RpcServerClass.StartOrder` | src/RpcServer.cc:111-125 | so the proxy runs last and once, every bind comes before every worker, and exactly the new workers are started, each once |
| `RpcServerClass.RpcServer.WorkerStop` | src/RpcServer.cc:194-203 | one stop message "TERMINATE" for each worker |
| `RpcServerClass.RpcServer.UnbindFrontend` | include/zqrpc/ZSocket.hpp:79-81 | endpoints inside the process are left bound |
| `RpcServerClass.RpcServer.Close` | src/RpcServer.cc:134-169 | what a close adds, place by place: every endpoint unbound as often as it was bound unless it is inside the process, one "TERMINATE" for each worker, each worker joined, the proxy stopped, the sockets closed; a server not started, or closed before, only has its sockets closed |
| `RpcServerClass.CloseOrder` | src/RpcServer.cc:145-168 | so unbinds come before stop messages, those before joins, and joins before the proxy is stopped; every stop message is one a worker stops at |
| `RpcServerClass.GenerateCallMethod` | plugin/ServiceGenerator.cc:215-229 | the cases of the generated switch |
| `RpcServerClass.GenerateStubMethods` | plugin/ServiceGenerator.cc:281-304 | the index each generated stub passes |
| `Shutdown.CloserRunsCloseScript` | src/RpcServer.cc:145-168 | the closing thread of the step system performs the script `RpcServer.Close` is proved to perform |
| `Shutdown.StopsReachEveryWorker` | src/RpcServer.cc:194-203 | for any number of workers, any ring order, any queues and any interleaving with exits: as long as no request is handed out while some but not all connected workers are owed a stop, the stop messages owed always match the workers still without one, and after the last every worker has one |
| `Shutdown.EachStopIsNew` | src/RpcServer.cc:198-200 | every stop message goes to a worker that had none, so they reach as many different workers |
| `Shutdown.StepKeepsOnePerWorker` | src/RpcServer.cc:151-161 | every step but an untimely request keeps that match |
| `Shutdown.ServingIsOnePerWorker` | src/RpcServer.cc:145-152 | it holds of every serving server when `Close` is called |
| `StopTurns.StartedServes` | src/RpcServer.cc:111-125 | what a start adds makes a serving server once the workers have connected, in whatever order and whatever requests wait |
| `StopTurns.StopsEveryWorkerIff` | src/RpcServer.cc:151-161 | over any run, exits included, up to the last stop message: every worker has got one, and `Close` can return, if and only if none was handed to the same worker as another, that is, each found a worker without |
| `StopTurns.StopsEveryWorkerByTurns` | src/RpcServer.cc:194-203 | if nobody disconnects before the last stop message: if and only if the turns at which they are handed out are distinct modulo the number of workers |
| `StopTurns.UnstoppedAfter` | src/RpcWorker.cc:69-72 | after any run the workers without a stop message are those that had none and were handed none |
| `StopTurns.TargetsByTurn` | src/RpcServer.cc:171-182 | as long as nobody disconnects the worker handed a message is the one whose turn it is |
| `StopTurns.QuietIsFresh` | src/RpcServer.cc:194-203 | in a quiet run, workers leaving or not, every stop message finds a worker without |
| `Shutdown.QuietIsExact` | src/RpcServer.cc:194-203 | handing out a request keeps the match at this step if and only if none or all of the connected workers are owed a stop |
| `Shutdown.SkippedStrands` | src/RpcServer.cc:151-161 | for any number of workers, a worker skipped by one such request is never stopped and `Close` never returns, unless a worker disconnects or a further request is handed out before the last stop |
| `Shutdown.OneRequestBetween` | src/RpcServer.cc:151-161 | a run with two workers and one request in which a worker gets no stop and no continuation lets `Close` return |
| `Shutdown.CloseTerminates` | src/RpcServer.cc:134-169 | under the same condition and without further arrivals every run is bounded, and where it can go no further `Close` has returned and all workers have exited |
| `Shutdown.CloseNeverBlocks` | src/RpcServer.cc:156-163 | as long as `Close` is not done somebody can move |
| `Shutdown.CloseReturnsIffNoneForgotten` | src/RpcServer.cc:156-163 | once the last stop is handed out, `Close` can return if and only if no worker was passed over |
| `Shutdown.ForgottenForever` | src/RpcWorker.cc:69-72 | a worker passed over stays so in every continuation |
| `Shutdown.ProxyOutlivesWorkers` | src/RpcServer.cc:156-163 | in every run the proxy is told to end only after every worker has exited, and does not end before |
| `Shutdown.StepKeepsBase` | src/RpcServer.cc:134-192 | every step keeps the ring in agreement with the live workers and the closing order |
| `Shutdown.StepDecreases` | src/RpcServer.cc:134-192 | every step but a new arrival shrinks what is left to do |
| `Framing.SendThenReceive` | include/zqrpc/ZSocket.hpp:95-143 | receiving from the parts of any non-empty messages returns exactly those messages, with nothing left over |
| `Framing.ReceiveExplainsWire` | include/zqrpc/ZSocket.hpp:116-143 | any parts at all are the messages received from them followed by an unfinished tail |
| `Framing.FirstMessage` | include/zqrpc/ZSocket.hpp:131-143 | one receive takes the first message and nothing of the next |
| `Framing.ZSocket.Send` | include/zqrpc/ZSocket.hpp:95-107 | all parts go out, the last unflagged, or a prefix of them when one is refused |
| `Framing.ZSocket.Recv` | include/zqrpc/ZSocket.hpp:116-143 | the receive loop takes the parts up to the first unflagged one; without one it has to be retried |
| `LexicalCast.IdRoundTrip` | src/RpcChannel.cc:134 | every id is read back as itself |
| `LexicalCast.ToDecimalInjective` | src/RpcChannel.cc:69 | different ids have different text |
| `LexicalCast.CodeRoundTrip` | src/RpcWorker.cc:104 | every error code, negative ones too, is read back as itself |
| `LexicalCast.ReadsSigned` | src/RpcChannel.cc:134 | ids with a sign, and ids that do not fit |
| `LexicalCast.ReadsPrefix` | src/RpcChannel.cc:141 | a code is read up to the first character that is no digit |
| `LexicalCast.NotANumber` | src/RpcChannel.cc:134-141 | other text reads as code 0 and is no id |
| `CppLiteral.BlobRoundTrip` | plugin/FileGenerator.cc:257-268 | a C++11 compiler reads the printed literals and size as the original bytes and their number, for every non-empty blob; an empty one has no literal |
| `CppLiteral.EarlyPhasesChangeNothing` | plugin/cpp_helpers.cc:339-342 | the text contains no `??` and no spliced line, so trigraph replacement and splicing leave it alone |
| `CppLiteral.PrintArguments` | plugin/FileGenerator.cc:260-268 | the printing loop emits one literal for each 40 bytes and then the size |
| `CppLiteral.SizeRoundTrip` | plugin/FileGenerator.cc:266-268 | the second argument is read back as the size |
| `CppLiteral.FortyBytesPerLine` | plugin/FileGenerator.cc:260-265 | one line for each forty bytes, and one for what is left |
| `CppLiteral.TextIsPlain` | plugin/strutil.h:252 | whatever the bytes, the text has only printing ASCII characters and line ends |
| `CppLiteral.EscapesAre` | plugin/strutil.h:252 | the letter escapes, the question mark, three digits for every other byte that does not print, and the rest unchanged |
| `Names.FilenameIdentifier` | plugin/cpp_helpers.cc:308-322 | the loop computes the byte-by-byte mangling |
| `Names.UnmangleInverts` | plugin/cpp_helpers.cc:308-322 | an identifier reads back as its file name if and only if no control byte is followed by a hex digit that would make a byte with it |
| `Names.IdentifiersDiffer` | plugin/cpp_helpers.cc:314-318 | such clean names, in particular all without bytes below 0x10, never share an identifier; every other name shares its identifier with a clean one |
| `Names.SharesIdentifier` | plugin/cpp_helpers.cc:308-322 | a name shares its identifier with another if and only if it is not clean or has a non-alphanumeric byte from 0x10 on |
| `Names.CleanRepresentative` | plugin/cpp_helpers.cc:308-322 | each identifier belongs to exactly one clean name, and two names share theirs if and only if the same clean name is read back |
| `Names.IdentifierCharacters` | plugin/cpp_helpers.cc:307-322 | only letters, digits and underscores |
| `Names.AlnumUnchanged` | plugin/cpp_helpers.cc:311-312 | letters and digits stand for themselves |
| `Names.CollisionExample` | plugin/strutil.h:323-325 | two names that collide |
| `Names.ClassName` | plugin/cpp_helpers.cc:115-130 | the search for the outermost type terminates, the cut is valid, and the result is the class name built up nesting level by nesting level |
| `Names.InnerName` | plugin/cpp_helpers.cc:122-129 | class name of the outermost type plus the underscored rest of the full name equals the name built level by level |
| `Names.OutermostIsPrefix` | plugin/cpp_helpers.cc:119-123 | the outermost type's full name is a prefix of the full name |
| `Names.FullNameParts` | plugin/cpp_helpers.cc:119-123 | a full name is package, outermost name and inner names with dots between them |
| `Names.QualifiedName` | plugin/cpp_helpers.cc:125-129 | the qualified class name is the package in colons in front of the unqualified one |
| `Names.UnqualifiedName` | plugin/cpp_helpers.cc:128 | the unqualified name joins the names from the outermost inwards with underscores |
| `Names.NestedExample` | plugin/cpp_helpers.cc:115-130 | message B in A of package p.q |
| `Names.EnumClassName` | plugin/cpp_helpers.cc:132-145 | for any name without a dot the result is the class name of the message that would stand in its place, but for the leading `::` outside any message |
| `Names.EnumLikeMessage` | plugin/cpp_helpers.cc:132-145 | the same relation between the two naming rules |
| `Names.ClassNameReadsBack` | plugin/cpp_helpers.cc:115-130 | on full names without underscores the full name can be read off the class name |
| `Names.ClassNamesDiffer` | plugin/cpp_helpers.cc:115-130 | so no two of them share one |
| `Names.ClassNameCollision` | plugin/cpp_helpers.cc:52-58 | with underscores two can |
| `HeaderNesting.HeaderIsNested` | plugin/FileGenerator.cc:30-86 | for any package, services and methods every brace is closed under the name it was opened with, innermost first, and none is left open |
| `HeaderNesting.StubDeclares` | plugin/ServiceGenerator.cc:117-128 | read back from the whole header, the stub class of each service declares x, x_Send and x_Recv once for each method x, in order, and nothing else |
| `HeaderNesting.InterfaceDeclares` | plugin/ServiceGenerator.cc:129-134 | read back from the whole header, the interface class of each service declares each method once, in order, and nothing else |
| `HeaderNesting.FunctionsOfHeader` | plugin/ServiceGenerator.cc:107-136 | the same for any services, classes of one name taken together |
| `HeaderNesting.StubsBackDeclarations` | plugin/ServiceGenerator.cc:281-304 | each of the three declared functions is backed by the generated stub of that method, with its own index |
| `HeaderNesting.NestClosers` | plugin/FileGenerator.cc:131-139 | the closers undo the openers in reverse order, under anything already open |
| `HeaderNesting.NestDeclarations` | plugin/ServiceGenerator.cc:26-35 | the declarations of any services leave the open namespaces as they were |
| `HeaderNesting.GenerateHeader` | plugin/FileGenerator.cc:30-86 | what the generator prints, and the printer's indent is what it was |
| `HeaderNesting.GenerateNamespaceOpeners` | plugin/FileGenerator.cc:121-129 | one opener for each part of the package |
| `HeaderNesting.GenerateNamespaceClosers` | plugin/FileGenerator.cc:131-139 | one closer for each part, last part first |
| `HeaderNesting.GenerateMethodSignatures` | plugin/ServiceGenerator.cc:107-136 | one signature for each method, three in a stub |
| `HeaderNesting.GenerateInterface` | plugin/ServiceGenerator.cc:37-77 | the interface class; indent restored and never below zero |
| `HeaderNesting.GenerateStubDefinition` | plugin/ServiceGenerator.cc:79-105 | the stub class; indent restored and never below zero |
| `HeaderNesting.GenerateDeclarations` | plugin/ServiceGenerator.cc:26-35 | forward declaration, interface and stub of one service |

## Left out

- RpcSystem steps: a send needs an id below 2^64 - 1; the wrap of the counter is in `SendStep` and in the condition of `SendKeepsBijection`.
- Confluence.PipelinedIsSynchronous: leaves `reqno_` out of the comparison, because it counts the requests pending at the send and so differs by design.
- Confluence.DrainOrderIrrelevant: needs distinct ids, because of two replies with one id the first wins.
- Pipelining.SendsThenReceives: all requests are sent before the first receive, as in the example of the repository's README; runs that mix sends and receives are those of `ChannelRuns`.
- Shutdown.SkippedStrands: assumes that, while stop messages are owed, nobody disconnects and no further request is handed out; either may still bring a skipped worker its turn, and `StopsEveryWorkerIff` says when.
- StopTurns.StopsEveryWorkerByTurns: assumes nobody disconnects before the last stop message, because the turns count places of a fixed ring; `StopsEveryWorkerIff` does without.
- ReceiveOrder.ReceivesInAnyOrder: needs four-frame messages with numeric ids, no id twice, which is what servers send; `ReceivesWithoutError` covers ids named twice when no message makes a receive throw.
- RpcChannelClass.RpcChannel.ZSendMethod: the parts of a refused message that stay on the socket are in `Framing.ZSocket.Send` only.
- RpcChannelClass.RpcChannel.Await: no time passes between reading the clock and starting to wait; the code may overrun its deadline by that moment.
- RpcChannelClass.DealerSocket.NonBlockingRecv: that messages arrive whole is libzmq's promise and assumed here; how parts become messages is `Framing`.
- RpcServerClass.RpcServer.Start: leaves out binds that fail.
- RpcServerClass.GenerateCallMethod: index and name of each case, without the types of the casts and the fatal default.
- RpcServerClass.GenerateStubMethods: name and index of each stub, without types and without the receive half, which passes nothing that depends on the method.
- HeaderNesting.StubDeclares: needs class names that differ, as C++ does; `FunctionsOfHeader` does without.
- HeaderNesting.InterfaceDeclares: likewise.
- RpcServerClass.RpcServer.RegisterService: a worker copies the method table when it is started, so services registered later reach only workers started later; the model has one table.
- HeaderNesting.GenerateHeader: lines without braces, include lines among them, are merged into single texts.
- HeaderNesting.GenerateMethodSignatures: names of functions, without their parameters.
- HeaderNesting.GenerateInterface: the brace-free lines of the class are one text.
- HeaderNesting.GenerateStubDefinition: the brace-free lines of the class are one text.
- libzmq inside: queues, identities and strict turns are taken from RFC 28/REQREP; libzmq may reorder its list of peers when one disconnects.
- Protocol-buffer parsing and serialising, and handlers, are functions chosen by the application; exceptions other than `ZError` from a handler are not modelled.
- Several threads using one channel: `RpcChannel` has no locks and is modelled as sequential.
- Partial or failed sends inside a worker, where the error handler pushes further frames.
- Object lifetime: leaked requests and responses, the raw `const char*` in `ZError`, controllers destroyed while pending, and `RemoveService`, which leaves a dangling entry in the table.
- Bind and connect errors, `Start` after a failed bind, and the exceptions `Start` swallows; the three internal binds are one action.
- The PUB/SUB front end behind noreply, beyond a worker that emits nothing.
- `atoi` on numbers that do not fit an int, which C++ leaves undefined, is unbounded here.
- Clients that send a message which is itself a two-frame TERMINATE; the worker's reaction to one is in `RpcWorker.Run`.
- `CEscape`, `FastHexToBuffer` and `StringReplace` are modelled by their documented contracts; their bodies are not part of the repository.
- Hexadecimal and universal character escapes are unknown to the literal reader; the generator never prints them.
- The template engine and the indentation of header text; `GenerateSource` is modelled only in its blob and its dispatch.
- The rest of the plugin: `DefaultValue`, keyword and type-name tables, option parsing.
