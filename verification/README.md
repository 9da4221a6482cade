# DejaView core: a verified model

DejaView records and analyses traces. This project models the part of its base and IPC libraries on which
everything else stands, and proves what that code promises about whole streams, whole runs and every interleaving:

* **Frames** (`FrameWire`, `FrameDeserializer`): the length-prefixed wire format and the buffer that cuts a byte stream
  into frames, shifting unread bytes in place and giving pages back.
* **The IPC client** (`IpcProtocol`, `IpcRuns`, `IpcDisconnect`, `IpcClient`, `IpcRefinement`, `IpcOperations`,
  `IpcEffects`): client, service proxies and deferred replies. A state machine holds the protocol; the classes do
  step by step what it says.
* **The task runner** (`TaskQueue`, `TaskRunnerRuns`, `TaskRunnerPolling`, `TaskRunnerOrder`, `TaskRunnerSingle`,
  `TaskRunnerExamples`, `TaskRunner`, `TaskRunnerRounds`, `TaskRunnerEffects`): a loop over poll(), immediate and
  delayed tasks and descriptor watches, with other threads acting between any two of its steps.
* **The meta-tracing ring buffer** (`Metatrace`, `MetatraceRuns`, `MetatraceExact`, `MetatraceTasks`,
  `MetatraceRing`): lock-free appends, one reader.
* **Sockets** (`SocketSend`, `SocketEvents`, `SocketVerdict`, `UnixSocket`): complete sends over a kernel that takes
  what it likes, and what the listener of a socket is told.
* **Periodic tasks** (`PeriodicModel`, `PeriodicTask`), **getopt** (`GetoptModel`, `GetoptRoundTrip`,
  `GetoptAnswers`, `Getopt`), the **string splitter** (`StringSplitter`), the **log ring** (`LogRing`) and **Base64**
  (`Base64`, `Base64Tables`, `Base64Codec`, `Base64Canonical`, `Base64Bits`).

Objects and loops of the original are classes, methods and loops here, each proved against a function on values. What
the code promises is proved about those functions: as invariants of every step, and from there about every run.
Threads, the kernel, the peer and user callbacks are steps or parameters that may come in any order and with any value.

Some things do not hold as one might expect. For each there is a run or an input that shows it, and for each promise
the exact condition under which it holds:

* Delayed tasks can start out of deadline order, because the clock is read before the lock is taken
  (`LatePostBreaksDeadlineOrder`); the order holds if and only if no task is inserted with a deadline before one
  already started (`DelayedOrderExactly`).
* The poll timeout is a 64-bit delay cast to 32 bits: `TimeoutExactly` says when the loop sleeps too long or not long
  enough, `TimeoutExamples` gives one of each.
* Two appends can get the same meta-trace record after the reader advances while an overrun is being rolled back
  (`AdvanceDuringRollBackIsUnsafe`). A state allows that before the reader's next store if and only if it is not `Safe`
  (`SafeExactly`), and in a run whose stores leave the state `Safe` no record is shared (`AppendsGetDifferentRecords`).
* Two tasks can be queued for one descriptor (`TwoTasksForOneDescriptor`). That takes a rebuild of the poll array,
  before Quit, that finds a registered descriptor with its task queued: without one there is at most one task
  (`OneTaskPerDescriptor`), and after one there can always be two (`StaleRebuildDoubles`).
* A repeating delay lands on the grid if and only if the clock is not negative or already on it (`DelayExactly`,
  `BeforeTheEpoch`). The failing half takes a negative clock, which the platform does not give: the wall clock of
  POSIX systems is CLOCK_MONOTONIC (include/dejaview/base/time.h:191).
* A stale continuation of a periodic task counts as current after an exact multiple of 2^32 resets (`StaleExactly`). A
  repeating task then has two continuations (`StaleExample`); in every run there is one at every moment if and only if
  that does not happen (`OneContinuation`).
* Encoding what Base64 text decodes to need not give the text back (`UnusedBitsAreLost`); it does if and only if the
  text is `Canonical` (`EncodeAfterDecode`).
* A long option without a name is taken for a short one (`NamelessLongOption`, `NamelessExactly`), and a malformed short
  option string stops all progress (`MalformedTableSticks`).

## Model

| member | source | states |
|---|---|---|
| FrameWire.EncodeHeader | src/ipc/buffered_frame_deserializer.cc:175-183 | the four header bytes decode to the size they were made from |
| FrameWire.HeaderBytes | src/ipc/buffered_frame_deserializer.cc:177-182 | the i-th header byte is the size divided by 256 to the i, modulo 256: the low byte comes first |
| FrameWire.DecodedIsWeighted | src/ipc/buffered_frame_deserializer.cc:96-99 | the size read is the sum of the header bytes, the i-th counting 256 to the i |
| FrameWire.FrameOnTheWire | src/ipc/buffered_frame_deserializer.cc:175-183 | a frame on the wire is four such bytes and the payload |
| FrameWire.FrameIsRead | src/ipc/buffered_frame_deserializer.cc:91-123 | said in bytes: a frame that fits the buffer is read, and what follows it is read as if it stood alone |
| FrameWire.OversizedByBytes | src/ipc/buffered_frame_deserializer.cc:96-118 | and a stream is rejected at once exactly when its first four bytes stand for more than fits |
| FrameWire.HeaderIsCanonical | src/ipc/buffered_frame_deserializer.cc:96-99 | a size has exactly one header: encoding a decoded header gives the same four bytes |
| FrameWire.SplitIsReading | src/ipc/buffered_frame_deserializer.cc:66-156 | the split of a stream is a correct reading of it: its frames laid out on the wire, then a rest that is an incomplete frame or, exactly when the stream is rejected, an oversized header |
| FrameWire.ReadingIsUnique | src/ipc/buffered_frame_deserializer.cc:66-156 | a stream has no other correct reading, so the split is determined by the wire format alone |
| FrameWire.SplitContinues | src/ipc/buffered_frame_deserializer.cc:66-156 | more bytes only continue the reading: frames are never revised, rejection is final |
| FrameWire.ChunkingIsIrrelevant | src/ipc/buffered_frame_deserializer.cc:46-156 | for every way of cutting a stream into receives, the frames, the verdict and the unread rest are those of the whole stream |
| FrameWire.FramesConcat | src/ipc/buffered_frame_deserializer.cc:166-172 | decoding goes payload by payload: the frames of two runs of payloads are those of the first, then those of the second, empty and unparsable payloads dropped |
| FrameWire.RoundTrip | src/ipc/buffered_frame_deserializer.cc:66-183 | serialising any list of frames that fit the buffer and parsing the bytes gives back that list, with nothing left over and no rejection |
| FrameWire.RejectedWithTheHeader | src/ipc/buffered_frame_deserializer.cc:96-118 | a stream is rejected exactly when the last byte of the oversized header arrives, not earlier |
| FrameDeserializer.AdviseDontNeed | src/ipc/buffered_frame_deserializer.cc:143-152 | giving back pages changes no byte outside the advised range; inside it the bytes may become zero |
| FrameDeserializer.ShiftDown | src/ipc/buffered_frame_deserializer.cc:131-139 | memmove to the start of the buffer keeps the moved bytes although the ranges overlap |
| FrameDeserializer.BufferedFrameDeserializer.constructor | src/ipc/buffered_frame_deserializer.cc:38-42 | a new deserializer has received nothing and holds no buffer |
| FrameDeserializer.BufferedFrameDeserializer.BeginReceive | src/ipc/buffered_frame_deserializer.cc:46-64 | the offered range starts right behind the unparsed bytes, reaches to the end of the buffer and is never empty |
| FrameDeserializer.BufferedFrameDeserializer.DecodeFrame | src/ipc/buffered_frame_deserializer.cc:166-172 | queues the frame at the end if the payload is not empty and parses, and drops it otherwise |
| FrameDeserializer.BufferedFrameDeserializer.NextFrame | src/ipc/buffered_frame_deserializer.cc:91-123 | one round of the parsing loop extends the frames read by one, or establishes the split of everything received |
| FrameDeserializer.BufferedFrameDeserializer.ConsumeFrames | src/ipc/buffered_frame_deserializer.cc:91-123 | exactly the complete frames of the buffered bytes are queued, and the verdict and the unread bytes are those of the split |
| FrameDeserializer.BufferedFrameDeserializer.DropConsumed | src/ipc/buffered_frame_deserializer.cc:125-153 | after the in-place shift and the page discarding the buffer still holds exactly the unread bytes |
| FrameDeserializer.BufferedFrameDeserializer.EndReceive | src/ipc/buffered_frame_deserializer.cc:66-156 | keeps the invariant: frames popped and queued are the parse of all bytes received, and the buffer holds exactly the unparsed rest; false exactly when the stream is rejected |
| FrameDeserializer.BufferedFrameDeserializer.PopNextFrame | src/ipc/buffered_frame_deserializer.cc:158-164 | frames are popped in order; null exactly when none is queued |
| FrameDeserializer.StreamAdvances | src/ipc/buffered_frame_deserializer.cc:66-156 | one more chunk adds exactly the frames of the carried rest plus the chunk, and the rest again fits the buffer |
| FrameDeserializer.Serialize | src/ipc/buffered_frame_deserializer.cc:175-183 | the wire form of the one frame: the size of the payload, low byte first, and the payload |
| FrameDeserializer.DrainFrames | src/ipc/buffered_frame_deserializer.cc:158-164 | popping until null yields all queued frames in order |
| FrameDeserializer.ReceiveOnce | src/ipc/client_impl.cc:211-230 | one receive appends exactly the bytes that arrived to the stream: as many as are wanted, fit and are there |
| FrameDeserializer.OnDataAvailable | src/ipc/client_impl.cc:209-234 | receives until one yields nothing, then delivers everything decoded; at a rejection nothing is delivered and what was decoded stays queued; every receive that asks for bytes gets some while there are any |
| FrameDeserializer.ReceiveLoop | src/ipc/client_impl.cc:209-234 | over a whole connection: without a rejection all frames of the bytes taken are delivered; with one, exactly the frames of the completed calls are, and the rest of the parse stays queued |
| FrameDeserializer.SendAndReceive | src/ipc/client_impl.cc:141-234 | frames sent through the serializer arrive in order through the deserializer: a prefix at any time, and all of them once there have been as many receives as bytes |
| IpcClient.DeferredBase.constructor | src/ipc/deferred.cc:25-27 | owns the callback it is given |
| IpcClient.DeferredBase.Move | src/ipc/deferred.cc:48-51 | the callback changes owner: the new one has it, the old one has none |
| IpcClient.DeferredBase.Bind | src/ipc/deferred.cc:53-56 | the callback given last is the one owned |
| IpcClient.DeferredBase.IsBound | src/ipc/deferred.cc:58-60 | true exactly when a callback is owned |
| IpcClient.DeferredBase.Resolve | src/ipc/deferred.cc:62-71 | calls the callback once, keeps it only if more results are announced, and does nothing when unbound |
| IpcClient.DeferredBase.RejectCallback | src/ipc/deferred.cc:73-76 | an owned callback gets one final failure and is released |
| IpcClient.DeferredBase.Destroy | src/ipc/deferred.cc:29-32 | an owned callback gets its final failure before the owner goes |
| IpcClient.DeferredBase.MoveAssign | src/ipc/deferred.cc:41-46 | the callback owned so far gets its final failure, then the other one is taken over |
| IpcClient.ServiceProxy.constructor | src/ipc/service_proxy.cc:31-32 | a new proxy is unbound and awaits nothing |
| IpcClient.ServiceProxy.InitializeBinding | src/ipc/service_proxy.cc:39-46 | client, service id and method ids become those of the bind reply |
| IpcClient.ServiceProxy.BeginInvoke | src/ipc/service_proxy.cc:48-80 | an invocation leaves proxy, client and callbacks as the protocol says: filed under the new id, or rejected at once on every path that cannot await a reply |
| IpcClient.ServiceProxy.Release | src/ipc/service_proxy.cc:48-80 | the reply parameter goes out of scope: its callback is rejected if it still owns one, and those the proxy holds are not affected |
| IpcClient.ServiceProxy.EmplacePending | src/ipc/service_proxy.cc:79 | the callback moves into the map under the new id, and stays apart from every other one |
| IpcClient.ServiceProxy.EndInvoke | src/ipc/service_proxy.cc:82-98 | the result goes to the callback of that request id and to no other; the entry goes with the last result; an unknown id changes nothing |
| IpcClient.ServiceProxy.ErasePending | src/ipc/service_proxy.cc:96-97 | taking out a reply object that has had its last result calls nothing and leaves the other callbacks as they are |
| IpcClient.ServiceProxy.DropPending | src/ipc/service_proxy.cc:108-109 | one reply object is destroyed: its callback gets its final failure, the others stay |
| IpcClient.ServiceProxy.ClearPending | src/ipc/service_proxy.cc:108-111 | every pending callback gets exactly one final failure, whatever the order of destruction |
| IpcClient.ServiceProxy.OnConnect | src/ipc/service_proxy.cc:100-106 | the listener is told whether the proxy is connected |
| IpcClient.ServiceProxy.OnDisconnect | src/ipc/service_proxy.cc:108-111 | all pending callbacks are rejected and none stays pending, the listener is told, and the proxy stays valid |
| IpcClient.ServiceProxy.Destroy | src/ipc/service_proxy.cc:34-37 | all pending callbacks are rejected, and a live client forgets the binding if there is one |
| IpcClient.ClientImpl.constructor | src/ipc/client_impl.cc:52-67 | a new client has no request, no binding and request id zero |
| IpcClient.ClientImpl.SendFrame | src/ipc/client_impl.cc:141-152 | the connection survives exactly a successful send |
| IpcClient.ClientImpl.NextRequestId | src/ipc/client_impl.cc:118 | the next id of a 64-bit counter |
| IpcClient.ClientImpl.EmplaceRequest | src/ipc/client_impl.cc:133-137 | a request is queued under its id; an entry that is there already wins |
| IpcClient.ClientImpl.BeginInvoke | src/ipc/client_impl.cc:111-139 | a new request id; zero when the reply is dropped or the send fails; otherwise the request is queued under it |
| IpcClient.ClientImpl.BindService | src/ipc/client_impl.cc:83-105 | a bind request is queued under a new id, or the proxy waits for the connection; the listener is told at once if the request cannot be sent; a destroyed proxy is ignored |
| IpcClient.ClientImpl.UnbindService | src/ipc/client_impl.cc:107-109 | the binding of that service id goes, and nothing else changes |
| IpcClient.ClientImpl.OnConnect | src/ipc/client_impl.cc:154-184 | a failed attempt is repeated after the next back-off if the client retries; otherwise the bindings that waited are sent in order, or their listeners told of the failure, those of destroyed proxies skipped |
| IpcClient.ClientImpl.SendQueuedBindings | src/ipc/client_impl.cc:174-182 | the bindings that waited, sent one by one, with the notices for those that fail |
| IpcClient.ClientImpl.FailQueuedBindings | src/ipc/client_impl.cc:174-182 | the listeners of the live proxies that waited are told, in order |
| IpcClient.ClientImpl.Destroy | src/ipc/client_impl.cc:69-74 | the client is disconnected and gone, and nothing is queued any more |
| IpcClient.ClientImpl.OnDisconnect | src/ipc/client_impl.cc:186-207 | one disconnection task for every binding and one failure notice for every queued bind request; bindings and waiting proxies are cleared, queued requests stay |
| IpcClient.ClientImpl.OnBindServiceReply | src/ipc/client_impl.cc:265-299 | the proxy is bound exactly when the reply succeeds, the proxy lives and no other live proxy has that service id; the listener of a live proxy is told which |
| IpcClient.ClientImpl.RemoteMethods | src/ipc/client_impl.cc:285-294 | the map has exactly the names of the entries with a name and an id, each with the id of its last such entry |
| IpcClient.ClientImpl.DecodeReply | src/ipc/client_impl.cc:306-315 | the message is what the first method with the request's name decodes; none without such a method, and none of a failed reply |
| IpcClient.ClientImpl.OnInvokeMethodReply | src/ipc/client_impl.cc:301-326 | a live proxy's callback gets the decoded result, a reply that nobody awaits calls nobody, and the request is put back exactly when the proxy lives and more is announced |
| IpcClient.ClientImpl.OnFrameReceived | src/ipc/client_impl.cc:236-263 | whole effect of a frame on queue, bindings, proxy, callbacks and listeners, with the proxy valid again and the same request put back; an unknown request id or a reply of the wrong kind has no further effect |
| IpcRuns.NewIdIsUnused | src/ipc/client_impl.cc:83-139 | request ids are never reused: the next one is in no queue and in no proxy |
| IpcRuns.InvokeKeeps | src/ipc/service_proxy.cc:48-80 | an invocation keeps the invariant on every path |
| IpcRuns.ReceiveKeeps | src/ipc/client_impl.cc:236-326 | every frame, expected or not, keeps the invariant |
| IpcRuns.ReplyDoneKeeps | src/ipc/client_impl.cc:316-326 | so does the completion of a reply after its callback ran arbitrary user code |
| IpcRuns.DestroyProxyKeeps | src/ipc/service_proxy.cc:34-37 | destroying a proxy keeps the invariant |
| IpcRuns.ProxyDisconnectKeeps | src/ipc/client_impl.cc:186-207 | a posted proxy disconnection keeps the invariant whenever it runs |
| IpcRuns.ConnectedKeeps | src/ipc/client_impl.cc:154-184 | sending the waiting bindings keeps the invariant whichever sends fail |
| IpcRuns.StepKeeps | src/ipc/client_impl.cc:83-326 | every operation keeps it: each queued request of a live proxy has a bound callback under the same id, each unfinished callback is filed exactly where it was handed in |
| IpcRuns.ReachableInv | src/ipc/client_impl.cc:52-326 | it holds in every state reachable from a fresh client |
| IpcRuns.NoUnexpectedReply | src/ipc/service_proxy.cc:82-90 | in no run does a reply reach a live proxy that lacks its callback |
| IpcRuns.ReplyReachesItsCallback | src/ipc/client_impl.cc:236-326 | in every run, a reply to a queued request of a live proxy adds its result, decoded by the first method of the request's name, to the callback of that request and to no other; whatever user code runs in between, completing it keeps request and callback exactly when more is announced |
| IpcRuns.CallbackIsOwnedOrFinished | src/ipc/deferred.cc:29-76 | at every moment a callback has any number of has-more results and at most one final one; unfinished ones have exactly one owner, finished ones none |
| IpcRuns.RunOnlyAdds | src/ipc/deferred.cc:62-76 | results only accumulate over a run, and a finished callback is never called again |
| IpcDisconnect.StepLinks | src/ipc/client_impl.cc:186-207 | every operation keeps it: before the disconnect a proxy that awaits replies is bound, after it its disconnection is posted |
| IpcDisconnect.NoCallbackIsLost | src/ipc/client_impl.cc:186-207 | in every run, once the client has been disconnected or destroyed and the tasks posted then have run, every callback ever handed in has had its final result |
| IpcDisconnect.UnsentAndDestroyedFinish | src/ipc/service_proxy.cc:34-80 | in every run, a callback whose request was not sent, or whose proxy has been destroyed, has had its final result |
| IpcRuns.ReplyInOnePiece | src/ipc/client_impl.cc:236-326 | a reply split around its callback amounts to what OnFrameReceived does in one piece |
| IpcProtocol.DecodeIsByFirst | src/ipc/client_impl.cc:306-315 | a reply is decoded by the first method with the name, and to nothing if no method has it |
| IpcProtocol.MethodMapIsLast | src/ipc/client_impl.cc:285-294 | names without an id and ids without a name are skipped, and of several entries with a name the last one counts |
| IpcEffects.InvokeExactly | src/ipc/service_proxy.cc:48-80 | a request with a callback is awaited, under the next id, if and only if the proxy is bound to a service with that method, the client lives and the request was sent; otherwise the callback is rejected at once |
| IpcEffects.InvokeWithoutCallback | src/ipc/service_proxy.cc:48-80 | without a callback the request is sent under the next id and nothing is awaited |
| IpcEffects.BindExactly | src/ipc/client_impl.cc:83-105 | a bind request of a live proxy waits if there is no connection; otherwise it uses up the next id and is awaited under it if and only if it was sent |
| IpcEffects.BindReplyExactly | src/ipc/client_impl.cc:265-299 | a bind reply binds the proxy if and only if it is a success, the proxy lives and no live proxy is known under the service id; the proxy then has exactly the methods listed |
| IpcEffects.BindingsAreExclusive | src/ipc/client_impl.cc:272-283 | in every run, until the disconnect, no two live proxies are bound to the same service |
| IpcEffects.AllAreSent | src/ipc/client_impl.cc:174-182 | when the connection is up and the sends succeed, every live proxy that waited gets its bind request sent, in order, under consecutive ids |
| IpcEffects.TheRestWaits | src/ipc/client_impl.cc:83-105 | without a connection the live ones wait again, in order, and nothing else changes |
| IpcEffects.FirstFailure | src/ipc/client_impl.cc:83-105 | at the first send that fails: the live ones before it are sent, its id is used up, the connection is gone, and the live ones behind it wait again |
| IpcEffects.BackoffIs | src/ipc/client_impl.cc:155-157 | the n-th retry comes after n seconds for n up to ten, and after half a minute from then on |
| IpcEffects.FailureIsTold | src/ipc/client_impl.cc:174-182 | after a failed attempt exactly the live proxies that waited are told, in order |
| IpcEffects.NobodyIsTold | src/ipc/client_impl.cc:83-105 | nobody is told anything while the sends succeed, nor while there is no connection |
| IpcEffects.FirstFailureIsTold | src/ipc/client_impl.cc:97-100 | of those that waited, only the one whose request could not be sent is told |
| IpcRefinement.HandledIs | src/ipc/client_impl.cc:236-326 | the machine's answer to a frame, part by part |
| IpcRefinement.HandleFrame | src/ipc/client_impl.cc:236-326 | handling a frame takes client, proxies and callbacks from one state of the machine to the next |
| IpcRefinement.HandleFrames | src/ipc/client_impl.cc:232-234 | so does handling any list of frames, streaming replies included |
| IpcRefinement.HandledIsRun | src/ipc/client_impl.cc:236-326 | and each such transition is a run of the machine |
| IpcOperations.Start | src/ipc/client_impl.cc:52-67 | a new client and an empty record of callbacks are in the machine's first state |
| IpcOperations.CreateProxy | src/ipc/service_proxy.cc:31-32 | a new proxy: the objects go to the state after the machine's operation |
| IpcOperations.DestroyProxy | src/ipc/service_proxy.cc:34-37 | so they do when a proxy is destroyed: its callbacks rejected, its binding gone, all else as it was |
| IpcOperations.BindProxy | src/ipc/client_impl.cc:83-105 | so they do at a bind request, sent, queued or failed |
| IpcOperations.InvokeProxy | src/ipc/service_proxy.cc:48-80 | so they do at an invocation with a new callback or none, on every path |
| IpcOperations.ConnectionAttempted | src/ipc/client_impl.cc:154-184 | so they do when a connection attempt ends, and a retry changes nothing |
| IpcOperations.LoseConnection | src/ipc/client_impl.cc:141-152 | so they do when the connection is found broken |
| IpcOperations.DisconnectClient | src/ipc/client_impl.cc:186-207 | so they do at the disconnection, and the tasks posted are tasks the machine has pending |
| IpcOperations.DestroyClient | src/ipc/client_impl.cc:69-74 | so they do when the client is destroyed |
| IpcOperations.RunDisconnection | src/ipc/client_impl.cc:188-192 | so they do when a posted disconnection task runs, also after its proxy has gone; so every sequence of calls is a run of the machine, and what holds of every run holds of the objects |
| TaskQueue.LowerBound | src/base/unix_task_runner.cc:279-306 | everything before the position is below the descriptor, everything from it on is not |
| TaskQueue.Reindexed | src/base/unix_task_runner.cc:116-135 | after a rebuild every watch knows its own position, in the order of the map |
| TaskQueue.Entries | src/base/unix_task_runner.cc:116-135 | the poll array lists the watched descriptors in that order, without events |
| TaskRunner.UnixTaskRunner.constructor | src/base/unix_task_runner.cc:40-45 | a new runner watches its wake-up event, and the poll array is still to be built |
| TaskRunner.UnixTaskRunner.WakeUp | src/base/unix_task_runner.cc:49-51 | the event is signalled |
| TaskRunner.UnixTaskRunner.Quit | src/base/unix_task_runner.cc:95-99 | quit is set and the loop is woken |
| TaskRunner.UnixTaskRunner.AdvanceTimeForTesting | src/base/unix_task_runner.cc:111-114 | the clock that deadlines are compared with moves on by so much |
| TaskRunner.UnixTaskRunner.PostTask | src/base/unix_task_runner.cc:257-266 | the task goes to the back of the queue; the event is signalled if the queue was empty |
| TaskRunner.UnixTaskRunner.PostDelayedTask | src/base/unix_task_runner.cc:268-277 | the task is inserted behind all tasks that are not later, and the event is signalled |
| TaskRunner.UnixTaskRunner.FindWatch | src/base/unix_task_runner.cc:216-305 | the position of the first watch that is not below the descriptor |
| TaskRunner.UnixTaskRunner.AddFileDescriptorWatch | src/base/unix_task_runner.cc:279-295 | the watch is registered in descriptor order or replaces the old one, the poll array is marked stale, the event is signalled |
| TaskRunner.UnixTaskRunner.RemoveFileDescriptorWatch | src/base/unix_task_runner.cc:297-306 | the watch goes and the poll array is marked stale |
| TaskRunner.UnixTaskRunner.UpdateWatchTasksLocked | src/base/unix_task_runner.cc:116-135 | poll array and positions are rebuilt exactly when they are stale |
| TaskRunner.UnixTaskRunner.GetDelayMsToNextTaskLocked | src/base/unix_task_runner.cc:245-255 | zero with immediate tasks, -1 with no tasks, otherwise the delay cut to 32 bits and not below zero |
| TaskRunner.UnixTaskRunner.PostFileDescriptorWatches | src/base/unix_task_runner.cc:165-212 | one task for every ready descriptor, whose entry is negated; the wake-up event is only cleared; everything else stays |
| TaskRunner.UnixTaskRunner.TakeTasksLocked | src/base/unix_task_runner.cc:137-155 | the first immediate task is taken if there is one, and the first delayed task if it is due, each whatever the other queue holds |
| TaskRunner.UnixTaskRunner.RunFileDescriptorWatch | src/base/unix_task_runner.cc:214-243 | both index checks hold as assertions; the entry is polled again and the callback now registered is taken, or nothing after a removal |
| TaskRunner.UnixTaskRunner.RunRound | src/base/unix_task_runner.cc:53-93 | one round of the loop from the quit test to the tasks it starts |
| TaskRunnerPolling.IndexChecksHold | src/base/unix_task_runner.cc:214-243 | after the refresh both index checks of a registered descriptor hold |
| TaskRunnerPolling.PollStepKeeps | src/base/unix_task_runner.cc:53-306 | every step of every thread keeps the correspondence of poll array, watches and queued watch tasks |
| TaskRunnerPolling.WakeStepKeeps | src/base/unix_task_runner.cc:53-306 | every step keeps the wake-up guarantee |
| TaskRunnerPolling.NoLostWakeUp | src/base/unix_task_runner.cc:53-99 | in every interleaving of posters, watchers, Quit and the loop: if the loop polls and has something to do that it did not know of, the event is signalled or a thread is about to signal it, poll watches the event, and its entry is never negated |
| TaskRunnerPolling.PollArrayMirrorsWatches | src/base/unix_task_runner.cc:116-135 | whenever the watches are unchanged, poll array and watches correspond one to one, and every negated entry has its task queued or in hand |
| TaskRunnerPolling.IndexChecksNeverFail | src/base/unix_task_runner.cc:214-235 | in every run the two index checks hold when a watch task runs |
| TaskRunnerPolling.NoWatchIsIgnored | src/base/unix_task_runner.cc:165-243 | in every run each registered watch is polled or has its task on the way |
| TaskRunnerEffects.DispatchExactly | src/base/unix_task_runner.cc:137-155 | every round starts the first immediate task if there is one and, whatever is in that queue, the first delayed task if and only if it is due |
| TaskRunnerEffects.ClockMoves | src/base/unix_task_runner.cc:111-114 | time passes by itself or is advanced by hand, and nothing else changes |
| TaskRunnerEffects.DueTaskIsStarted | src/base/unix_task_runner.cc:137-163 | once its deadline has passed, the delayed task at position k is started within k+1 rounds and one more for every earlier deadline posted meanwhile, whatever else arrives |
| TaskRunnerEffects.NoDelayedStarvation | src/base/unix_task_runner.cc:53-163 | so it is in every state reachable from a new task runner |
| TaskRunnerEffects.DelayedTaskIsKept | src/base/unix_task_runner.cc:268-277 | a posted delayed task is queued until it is started: none is lost |
| TaskRunnerEffects.SleepsForeverExactly | src/base/unix_task_runner.cc:245-255 | poll waits without a limit if and only if there is no task at all, and not at all with an immediate one |
| TaskRunnerEffects.QuitAtTheTop | src/base/unix_task_runner.cc:57-65 | at the top of the loop it ends if and only if Quit was called |
| TaskRunnerEffects.QuitEndsTheLoop | src/base/unix_task_runner.cc:53-99 | in every run after Quit the loop starts tasks at most once more, and only if it was already past the top |
| TaskRunnerEffects.OnlyQuitEndsTheLoop | src/base/unix_task_runner.cc:53-99 | in every run in which the loop has ended somebody has called Quit |
| TaskRunnerEffects.AddIsUpdate | src/base/unix_task_runner.cc:279-295 | watches form a map: adding one registers it for its descriptor and leaves every other descriptor's as it was |
| TaskRunnerEffects.RemoveIsErase | src/base/unix_task_runner.cc:297-306 | and removing one withdraws it and leaves the others |
| TaskRunnerEffects.PostedExactly | src/base/unix_task_runner.cc:165-212 | every ready descriptor gets one task, in order, and is ignored from then on; other entries and the rest of the state stay |
| TaskRunnerEffects.SignalFrom | src/base/unix_task_runner.cc:184-195 | the wake-up event is cleared when it has fired and stays as it was otherwise, except that a first task posted to an empty queue signals it again |
| TaskRunnerRounds.RoundIsSteps | src/base/unix_task_runner.cc:53-93 | a round of the task runner object is a sequence of the loop's own steps of the state machine: the same queues, timeout and tasks to start, so what holds of every run holds of rounds |
| TaskRunnerRounds.IgnoredIsPolledAgain | src/base/unix_task_runner.cc:165-243 | in every run a descriptor that poll ignores has its task at some queue position k, and k+1 rounds later the task has run and poll attends to the descriptor again, or it is no longer watched |
| TaskRunnerOrder.TasksRunOnceInPostingOrder | src/base/unix_task_runner.cc:137-163 | in every run the immediate tasks started are a prefix of those posted, and none is lost or duplicated |
| TaskRunnerOrder.NoStarvation | src/base/unix_task_runner.cc:137-163 | the task at queue position k has started once k+1 rounds have passed, whatever arrives meanwhile |
| TaskRunnerOrder.InsertPosition | src/base/unix_task_runner.cc:268-277 | a delayed task is inserted after all that are not later and before all that are |
| TaskRunnerOrder.NeverEarly | src/base/unix_task_runner.cc:137-155 | in every run no delayed task starts before the clock has reached its deadline |
| TaskRunnerOrder.DelayedOrderExactly | src/base/unix_task_runner.cc:268-277 | in every run, started and queued delayed tasks together are in deadline order, ties in posting order, if and only if no task was inserted with a deadline before one already started |
| TaskRunnerOrder.AtomicPostsAreNeverEarly | src/base/unix_task_runner.cc:268-277 | that condition holds when deadlines are computed from the clock at insertion |
| TaskRunnerOrder.DelayedTasksRunInOrder | src/base/unix_task_runner.cc:137-163 | so with a monotone clock and atomic posts, started and queued tasks together are in deadline order |
| TaskRunnerOrder.RemovedWatchIsNeverCalled | src/base/unix_task_runner.cc:214-306 | in every run, once a watch has been removed or replaced its callback is never taken again |
| TaskRunnerOrder.TimeoutExactly | src/base/unix_task_runner.cc:245-255 | the 32-bit cast: poll sleeps too long if and only if the deadline is overdue and the low 32 bits are positive, wakes early if and only if the delay exceeds 2^31-1 ms, and never sleeps too long while overdue by at most 2^31 ms |
| TaskRunnerOrder.TimeoutExamples | src/base/unix_task_runner.cc:245-255 | at clock 2^32-1 a deadline of 0 makes poll sleep, and at clock 0 one 2^31 ms ahead does not |
| TaskRunnerExamples.LatePostBreaksDeadlineOrder | src/base/unix_task_runner.cc:268-277 | a run in which a post that read the clock early makes delayed tasks start out of order |
| TaskRunnerExamples.TwoTasksForOneDescriptor | src/base/unix_task_runner.cc:116-212 | a run in which a rebuild of the poll array leads to two queued tasks for one descriptor |
| TaskRunnerSingle.OneTaskPerDescriptor | src/base/unix_task_runner.cc:116-243 | in every run in which no rebuild of the poll array, before Quit, finds a registered descriptor with its task queued, each descriptor has at most one task queued or in hand |
| TaskRunnerSingle.StaleRebuildDoubles | src/base/unix_task_runner.cc:116-212 | from every state in which a rebuild does find one, a run exists that queues a second task for it |
| Metatrace.StepKeeps | src/base/metatrace.cc:82-132 | every atomic step of every thread keeps the bookkeeping: what was read was handed out, indices handed out lie in the window, wr counts records handed out and appends in flight, at most one read task is queued |
| Metatrace.FetchAddIsSafe | src/base/metatrace.cc:93-94 | a new append goes back or is the next one to be handed a record, so a safe state stays safe |
| Metatrace.FetchSubIsSafe | src/base/metatrace.cc:123-131 | so does a roll-back keep it |
| Metatrace.StepIsSafe | src/base/metatrace.cc:93-132 | so does every step but the reader's store |
| MetatraceRuns.RunKeeps | src/base/metatrace.cc:82-132 | the bookkeeping holds in every run, whatever the reader does |
| MetatraceRuns.AppendsGetDifferentRecords | src/base/metatrace.cc:93-132 | in every run in which the state is safe whenever the reader has stored its position, no index is handed out twice, and unread records never share a slot |
| MetatraceRuns.NoOverrunNoDuplicate | src/base/metatrace.cc:93-132 | the same when no append finds the buffer full, whatever the reader does |
| MetatraceRuns.QuiescentGrants | src/base/metatrace.cc:93-132 | with nothing in flight the indices handed out are exactly those below the write index |
| MetatraceRuns.BankruptcyCount | src/base/metatrace.cc:93-132 | with the reader still, n appends by any threads give min(n, 4096) records with the indices 0.., and exactly the rest get the bankruptcy record |
| MetatraceTasks.OverrunsExactly | src/base/metatrace.cc:120-124 | in every run the overrun flag is set if and only if some append found the buffer full |
| MetatraceTasks.ReadTaskExactly | src/base/metatrace.cc:102-118 | with the reader still: once a record of the second half was handed out or an append found the buffer full, the read task is posted exactly once, and it is posted only if there were more appends than the first half holds |
| MetatraceTasks.ReaderGetsAll | include/dejaview/ext/base/metatrace.h:158-226 | with nothing in flight the reader gets every record not yet read, one after the other, and frees them all |
| MetatraceExact.SafeExactly | src/base/metatrace.cc:93-132 | a state is safe if and only if no continuation before the reader's next store hands out an index twice |
| MetatraceExact.ReachableSafeExactly | src/base/metatrace.cc:93-132 | the same of every state reachable from reset |
| MetatraceExact.UnsafeDuplicates | src/base/metatrace.cc:113-131 | from every unsafe state, the continuation that hands out an index twice |
| MetatraceExact.AdvanceDuringRollBackIsUnsafe | include/dejaview/ext/base/metatrace.h:168-174 | a run from reset in which the reader's store makes the state unsafe, and how it goes on to hand out an index twice |
| MetatraceRing.RingBuffer.constructor | src/base/metatrace.cc:31-37 | the static storage starts in the reset state |
| MetatraceRing.RingBuffer.Reset | src/base/metatrace.cc:82-90 | both indices, the overrun flag and the read-task flag are cleared; a read task already posted stays |
| MetatraceRing.RingBuffer.AppendNewRecord | src/base/metatrace.cc:93-132 | an uninterrupted append does what its atomic steps do: it gets the slot of the write index exactly when there is room, otherwise the write index comes back and the overrun is recorded |
| SocketSend.ShiftMsgHdr | src/base/unix_socket.cc:287-306 | for every n the pieces left gather to the old data without its first n bytes; no piece is left exactly when all was sent |
| SocketSend.CutPiece | src/base/unix_socket.cc:291-298 | a piece sent in part is cut in place, and what remains starts there |
| SocketSend.ShiftAndDropControl | src/base/unix_socket.cc:555-559 | after a send the header holds the rest of the data and no descriptors |
| SocketSend.SendMsgAll | src/base/unix_socket.cc:503-563 | for every behaviour of the kernel, bytes sent, number of sends, result and ending are those the kernel's behaviour alone determines; bytes on the wire followed by the remaining pieces are the original data; descriptors go with the first successful send only |
| SocketSend.BrokenOnlyByFailure | src/base/unix_socket.cc:545-563 | a send breaks only at an error of the kernel, or when there is nothing to send |
| SocketSend.BlockedOnlyByKernel | src/base/unix_socket.cc:545-563 | it gives up only where the kernel blocks for good, or after everything the kernel was going to do |
| SocketSend.AcceptingKernelTakesAll | src/base/unix_socket.cc:545-563 | a kernel that goes on accepting gets everything |
| SocketSend.Send | src/base/unix_socket.cc:565-594 | the wire gets exactly the prefix of the message that the kernel's behaviour determines, and the result counts it unless the send broke |
| SocketEvents.OnEventKeeps | src/base/unix_socket.cc:1021-1063 | handling a socket event keeps the conservation of listener calls |
| SocketEvents.ShutdownKeeps | src/base/unix_socket.cc:1096-1117 | so does a shutdown |
| SocketEvents.RunPostedKeeps | src/base/unix_socket.cc:1096-1160 | so does every posted callback, whenever it runs |
| SocketEvents.StepKeeps | src/base/unix_socket.cc:802-1160 | so does every operation |
| SocketEvents.ListenerGuarantees | src/base/unix_socket.cc:802-1160 | in every run of a socket made by Connect: at most one OnConnect and one OnDisconnect, OnDisconnect and OnDataAvailable only after OnConnect(true), no data after the disconnection, and a valid watched handle in every state but disconnected |
| SocketEvents.OnConnectIsCalled | src/base/unix_socket.cc:884-911 | once nothing is posted, a socket that is not connecting and whose notices were not waived has told the listener exactly once, and of the disconnection exactly if it was connected |
| SocketVerdict.ConnectPosts | src/base/unix_socket.cc:884-911 | a started attempt has its first look posted, one that could not be started its failure notice |
| SocketVerdict.Undecided | src/base/unix_socket.cc:1035-1036 | events that report progress, and whatever else happens meanwhile, change nothing |
| SocketVerdict.OpensIsReported | src/base/unix_socket.cc:1029-1046 | if the first event that is not just progress reports no error, the listener is told of the connection first of all |
| SocketVerdict.RefusedIsReported | src/base/unix_socket.cc:1029-1046 | if it reports an error, the socket is disconnected and the one notice is that of the failure |
| SocketVerdict.GivenUpIsNotReported | src/base/unix_socket.cc:1096-1117 | if the attempt is given up before, there is no connection and no notice of one |
| SocketVerdict.ReportedExactly | src/base/unix_socket.cc:802-1063 | in every run of a socket made by Connect, the listener is told of a connection if and only if the attempt was started and the first thing that decided it was an event without an error |
| SocketVerdict.ConnectedExactly | src/base/unix_socket.cc:802-1141 | the socket is connected if and only if, moreover, nothing since has given it up or found it broken |
| SocketVerdict.DataIsReported | src/base/unix_socket.cc:1021-1063 | as long as the connection lasts the listener is told of every event, and of nothing else |
| UnixSocket.UnixSocket.Connect | src/base/unix_socket.cc:776-867 | a new socket is connecting with its handle watched, or has the failure notice posted |
| UnixSocket.UnixSocket.DoConnect | src/base/unix_socket.cc:884-911 | as above, by whether connect() could be started |
| UnixSocket.UnixSocket.NotifyConnectionFailure | src/base/unix_socket.cc:1151-1160 | the socket is shut down without notice and the failure notice is posted |
| UnixSocket.UnixSocket.Shutdown | src/base/unix_socket.cc:1096-1117 | handle and watch go, and the notice due in the old state is posted if asked for |
| UnixSocket.UnixSocket.OnEvent | src/base/unix_socket.cc:1021-1063 | data is reported while connected; a pending connection succeeds, goes on or fails by its socket error |
| UnixSocket.UnixSocket.Send | src/base/unix_socket.cc:1066-1094 | true if and only if the socket was connected and the kernel took everything, so with a kernel that goes on accepting it is true; false implies that the socket is no longer connected, which is what the client's check relies on |
| UnixSocket.UnixSocket.Receive | src/base/unix_socket.cc:1119-1141 | the bytes received, or a shutdown at the end of the stream and on errors |
| UnixSocket.UnixSocket.ReleaseSocket | src/base/unix_socket.cc:874-881 | the handle is given away without any notice |
| UnixSocket.UnixSocket.Destroy | src/base/unix_socket.cc:869-872 | the listener hears nothing from a destroyed socket |
| UnixSocket.UnixSocket.RunTask | src/base/unix_socket.cc:1096-1160 | a posted callback acts only while the socket lives |
| PeriodicModel.DelayExactly | src/base/periodic_task.cc:37-44 | the delay lies in 1..period and ends on a multiple of the period if and only if the clock is not negative, as the platform's never is, or already on one |
| PeriodicModel.OneShotWaits | src/base/periodic_task.cc:37-44 | a one-shot task waits for its whole period, whatever the clock says |
| PeriodicModel.StartExactly | src/base/periodic_task.cc:85-111 | Start makes the task active if and only if it is given a task and a period, with a timer exactly if one was asked for and made, and calls it at once exactly if asked for |
| PeriodicModel.CallsExactly | src/base/periodic_task.cc:128-167 | a continuation or timer that acts calls the task exactly once, ends it if it is a one-shot and gives up a timer that cannot be read; one that does not act changes nothing |
| PeriodicModel.ResetCallsNothing | src/base/periodic_task.cc:81-182 | Reset and destruction end the task and call nothing |
| PeriodicModel.BeforeTheEpoch | src/base/periodic_task.cc:37-44 | a clock at -1 ms makes a period of ten wait eleven |
| PeriodicModel.StaleExactly | src/base/periodic_task.cc:128-131 | firing a continuation of an earlier generation has no effect but to remove it if and only if there is nothing to do or the number of resets since is no multiple of 2^32; otherwise it calls the current task |
| PeriodicModel.ResetKeeps | src/base/periodic_task.cc:169-175 | Reset keeps the invariant, and leaves no continuation of the new generation and no timer |
| PeriodicModel.StartKeeps | src/base/periodic_task.cc:85-111 | Start keeps the invariant and leaves exactly one continuation or one timer of the new generation |
| PeriodicModel.ProceedKeeps | src/base/periodic_task.cc:152-167 | a continuation that acts resets a one-shot or posts one more, so one is left exactly if none was pending beside it |
| PeriodicModel.FireKeeps | src/base/periodic_task.cc:128-167 | firing any pending continuation, current or stale, keeps the invariant, and keeps the task at one continuation or one timer if and only if it does not double |
| PeriodicModel.TimerFiresKeeps | src/base/periodic_task.cc:128-167 | an expiry of the timer, spurious, good or failed, keeps both |
| PeriodicModel.StepKeeps | src/base/periodic_task.cc:78-182 | every operation keeps the invariant, and the one continuation or timer if and only if it does not double, also when the task itself starts or resets |
| PeriodicModel.DoublingLeavesTwo | src/base/periodic_task.cc:128-167 | doubling leaves two continuations of the current generation |
| PeriodicModel.OneContinuation | src/base/periodic_task.cc:85-182 | for every run: at every moment an active task has exactly one pending continuation of the current generation or a timer and an inactive one neither, if and only if no stale continuation bound to the same 32 bits ever fires on a repeating task without a timer |
| PeriodicModel.OneShotOnce | src/base/periodic_task.cc:128-167 | in every run, stale continuations included, a one-shot task is called through the runner at most once per Start |
| PeriodicModel.StaleExample | src/base/periodic_task.cc:128-131 | a run from a new task, through a Start, 2^32-1 resets and another Start, after which the first continuation still fires and leaves two |
| PeriodicTask.PeriodicTask.constructor | src/base/periodic_task.cc:78-79 | a new task is inactive |
| PeriodicTask.PeriodicTask.Reset | src/base/periodic_task.cc:169-175 | a new generation, no task and no timer; the 32-bit counter wraps |
| PeriodicTask.PeriodicTask.ResetTimerFd | src/base/periodic_task.cc:177-182 | the timer goes |
| PeriodicTask.PeriodicTask.PostNextTask | src/base/periodic_task.cc:113-122 | one continuation bound to the current generation, after the period for a one-shot and on the grid otherwise |
| PeriodicTask.PeriodicTask.Start | src/base/periodic_task.cc:85-111 | as the state machine says, including a refused start without task or period; one post with the right delay unless there is a timer, and the task called at once if asked for |
| PeriodicTask.PeriodicTask.RunTaskAndPostNext | src/base/periodic_task.cc:128-167 | as the state machine says, for continuations and timer expiries; the task called is the one that was current, also when it was a one-shot |
| PeriodicTask.PeriodicTask.Fire | src/base/periodic_task.cc:113-167 | a posted continuation leaves the queue and runs as the state machine says |
| PeriodicTask.PeriodicTask.Destroy | src/base/periodic_task.cc:81-83 | nothing runs after destruction |
| Getopt.LookupLongOpt | src/base/getopt_compat.cc:40-48 | the first entry with exactly this name, none exactly when there is no such entry |
| Getopt.LookupShortOpt | src/base/getopt_compat.cc:50-56 | the first nameless entry with this character, none exactly when there is no such entry |
| Getopt.ParseOpts | src/base/getopt_compat.cc:58-92 | long options first, then the short ones in order; false exactly when the short option string is malformed |
| Getopt.Globals.constructor | src/base/getopt_compat.cc:31-38 | the globals start at the beginning of argv |
| Getopt.Globals.LongOption | src/base/getopt_compat.cc:119-158 | a word of the form --name or --name=value: option, argument and new position on every branch |
| Getopt.Globals.ShortOption | src/base/getopt_compat.cc:166-218 | one character of a group: option, attached or separate argument and new position on every branch |
| Getopt.Globals.GetoptLong | src/base/getopt_compat.cc:96-226 | one call from any valid state ends in a valid state and does to the globals what the step function says |
| Getopt.Globals.CollectOptions | src/base/getopt_compat.cc:96-226 | calling until -1 ends and collects exactly what the recursive parse says |
| GetoptAnswers.AlnumIs | src/base/getopt_compat.cc:72-73 | short options are the letters and digits of ASCII |
| GetoptAnswers.TableIs | src/base/getopt_compat.cc:58-92 | there is a table exactly when the short option string is letters and digits each followed by at most one colon; it has the long options, then one nameless entry for each letter or digit, which takes an argument if and only if a colon follows |
| GetoptAnswers.ShortWordsAre | src/base/getopt_compat.cc:160-164 | a group of short options is a dash and something that does not begin with a dash |
| GetoptAnswers.LongWordsAre | src/base/getopt_compat.cc:119 | a long option is two dashes and something |
| GetoptAnswers.ShortAnswers | src/base/getopt_compat.cc:166-218 | a character is answered with itself exactly when the table has a nameless entry for it and the argument it takes, if any, is there: the rest of the word, or else the next word; otherwise with '?'; optopt is the character in any case |
| GetoptAnswers.EveryLongWord | src/base/getopt_compat.cc:119-125 | every long word is --name or --name=value, with no '=' in the name |
| GetoptAnswers.LongAnswers | src/base/getopt_compat.cc:119-158 | a name is answered with the value of the first entry that has it, if the argument is there exactly if the entry takes one: after the '=' or as the next word; otherwise with '?'; optopt is the value of the entry, or zero if there is none |
| GetoptAnswers.EndAnswers | src/base/getopt_compat.cc:220-225 | -1 leaves optind at the first word that is no option, or behind a -- |
| GetoptModel.StepKeeps | src/base/getopt_compat.cc:96-226 | nextchar, when set, stays at a character of argv[optind]; optind never exceeds argc and never moves back |
| GetoptModel.StepReads | src/base/getopt_compat.cc:96-226 | with a well-formed table every call that does not return -1 strictly decreases the unread characters |
| GetoptModel.MalformedTableSticks | src/base/getopt_compat.cc:110-111 | with a malformed table no call makes progress |
| GetoptModel.EndsExactly | src/base/getopt_compat.cc:104-225 | -1 is returned exactly at the end of argv or at a word that is no option |
| GetoptModel.WhereItEnds | src/base/getopt_compat.cc:96-226 | for every argv the calls end, within as many options as there are characters, at the end, at a word that is no option, or right after -- |
| GetoptRoundTrip.RoundTrip | src/base/getopt_compat.cc:96-226 | any list of options, written in long, =, separate-argument or grouped short form, then -- and positionals, is given back by repeated calls, with optind at the first positional |
| GetoptRoundTrip.NamelessLongOption | src/base/getopt_compat.cc:119-154 | a word --=value is taken for the first entry without a name, which is a short option |
| GetoptRoundTrip.NamelessExactly | src/base/getopt_compat.cc:40-48 | that happens if and only if the table has an entry without a name |
| StringSplitter.SplitThenJoin | src/base/string_splitter.cc:62-89 | the tokens of the pure split are free of delimiters and join to the text |
| StringSplitter.JoinThenSplit | src/base/string_splitter.cc:62-89 | and there is no other way to cut the text |
| StringSplitter.DropEmptyIs | src/base/string_splitter.cc:62-89 | exactly the empty tokens are dropped, and a list without any stays as it is |
| StringSplitter.DropEmptyConcat | src/base/string_splitter.cc:62-89 | the order of the others is kept |
| StringSplitter.StringSplitter.FromBuffer | src/base/string_splitter.cc:37-60 | the buffer is terminated by a NUL in place, nothing else in it changes |
| StringSplitter.StringSplitter.FromString | src/base/string_splitter.cc:26-35 | the tokens to come are those of the whole string |
| StringSplitter.StringSplitter.Next | src/base/string_splitter.cc:62-89 | the first of the tokens to come, NUL-terminated in place, and only delimiters in the part scanned are overwritten; false exactly when none is left |
| StringSplitter.StringSplitter.TakeToken | src/base/string_splitter.cc:69-84 | the token that starts here, with the rest of the tokens unchanged |
| StringSplitter.StringSplitter.FindStop | src/base/string_splitter.cc:70-81 | the first delimiter or NUL from here on, which is always found |
| StringSplitter.SplitAll | src/base/string_splitter.cc:62-89 | repeated calls yield exactly the tokens to come, and touch nothing outside the part still to be split |
| StringSplitter.SplitToken | src/base/string_splitter.cc:45-89 | running a nested splitter to exhaustion on the current token leaves the outer splitter's tokens unchanged and yields the tokens of that token |
| StringSplitter.SplitString | src/base/string_splitter.cc:26-89 | repeated calls on a string yield its pure split up to the first NUL (all of it when NUL delimits), empty tokens kept or dropped by mode |
| LogRing.LogRingBuffer.constructor | src/base/log_ring_buffer.h:57-59 | a new ring holds no message |
| LogRing.LogRingBuffer.Append | src/base/log_ring_buffer.h:67-91 | the message, capped at 255 characters, is the newest; the last eight stay readable, also when the 32-bit counter wraps |
| LogRing.LogRingBuffer.Print | src/base/log_ring_buffer.h:84-90 | a slot holds the capped text, NUL-terminated, and no other slot changes |
| LogRing.LogRingBuffer.CopyLine | src/base/log_ring_buffer.h:107-127 | one slot becomes one sanitised line, or as much of it as fits, with the exact count |
| LogRing.LogRingBuffer.Read | src/base/log_ring_buffer.h:93-139 | exactly the first len-1 characters of the newline-terminated, sanitised last eight messages, oldest first, NUL-terminated and with the right count; nothing beyond len is written |
| LogRing.MessageIs | src/base/log_ring_buffer.h:84-90 | a message is timestamp, source, a space and the text, each up to its first NUL, and 255 characters of that, said character by character |
| LogRing.LineIsPrintable | src/base/log_ring_buffer.h:118-124 | printable ASCII is printed as it is, anything else as a question mark, and only the end of a line is a newline |
| LogRing.LinesConcat | src/base/log_ring_buffer.h:103-127 | lines come one after the other, in the order of the messages |
| LogRing.LastFewAre | src/base/log_ring_buffer.h:103-106 | the messages read are the last eight, oldest first |
| LogRing.SlotOfVisit | src/base/log_ring_buffer.h:103-106 | the slot visited at a position is that of the message as old as the position says, although the counter wraps |
| Base64Tables.EncodeDigit | src/base/base64.cc:26-28 | the encoding table is the alphabet of section 4 of RFC 4648 |
| Base64Tables.DecodeChar | src/base/base64.cc:30-51 | the decoding table accepts the alphabets of sections 4 and 5 of RFC 4648 and the padding, with their values, and nothing else |
| Base64.ValueOfLetter | src/base/base64.cc:24-51 | every digit encodes to a character that decodes to it and is not padding |
| Base64.LetterOfValue | src/base/base64.cc:24-51 | every character of the standard alphabet is the one its value encodes to |
| Base64.EncodedSize | include/dejaview/ext/base/base64.h:31-33 | an encoding has exactly 4*ceil(n/3) characters |
| Base64.DecodedSize | include/dejaview/ext/base/base64.h:35-39 | a decoded text has 3*ceil(n/4) bytes less one for every padding character in the last two places |
| Base64.RoundTrip | src/base/base64.cc:55-137 | decoding an encoding yields the bytes |
| Base64.StrippedRoundTrip | src/base/base64.cc:119-136 | so it does when some or all of the trailing padding is left out |
| Base64.UrlSafeDecodesAlike | src/base/base64.cc:30-51 | any text and its URL-safe form decode alike or are refused alike |
| Base64Bits.EncodedBits | src/base/base64.cc:55-96 | as a stream of bits, most significant first: the bits of the bytes are the first bits of the digits of their encoding |
| Base64Bits.DecodedBits | src/base/base64.cc:106-137 | and for every text that decodes, the bits of the bytes are the first bits of its digits, padding counting as zeros |
| Base64Canonical.EncodeAfterDecode | src/base/base64.cc:55-137 | for every text: decoding and encoding give it back if and only if it is whole groups of the standard alphabet, with at most two padding characters at the end and no unused bit set |
| Base64Canonical.UnusedBitsAreLost | src/base/base64.cc:119-136 | two texts that decode alike, of which one does not come back |
| Base64Codec.Encode | src/base/base64.cc:55-96 | -1 exactly when the destination is too small, which is then untouched; otherwise exactly the encoding is written and nothing behind it |
| Base64Codec.EncodeGroup | src/base/base64.cc:66-93 | one to three bytes become four characters, and no other character is touched |
| Base64Codec.EncodeString | src/base/base64.cc:98-104 | the encoding as a string of exact size |
| Base64Codec.ReadGroup | src/base/base64.cc:121-127 | four characters with missing padding filled in; refused exactly when one is invalid or only one is left |
| Base64Codec.Decode | src/base/base64.cc:106-137 | -1 exactly when the destination is too small, a character is invalid or a single one is left over; otherwise the decoded bytes are written, never more than 3*ceil(n/4) |
| Base64Codec.DecodeString | src/base/base64.cc:139-150 | the decoded bytes, or nothing |

## Left out

- Protobuf: messages and frames go through an abstract pair of serialising and parsing functions of which only the
  round trip is assumed where a round trip is stated.
- The host side of the IPC: the host is any source of frames.
- IpcRuns.StepKeeps: one client, whose 64-bit request counter is not exhausted; client and proxy are not destroyed from
  within the reply callback they are calling, and no frame is handled after the socket reported its disconnection,
  which `SocketEvents.ListenerGuarantees` shows of the socket.
- IpcClient.ClientImpl.OnConnect: what a listener does when it is told, such as destroying the client, is not modelled.
- IpcClient.ClientImpl.SendFrame: file descriptors that travel with a frame are not modelled.
- IpcClient.ServiceProxy.BeginInvoke: the encoding of the request message, which has no failure path, is not modelled.
- FrameDeserializer.BufferedFrameDeserializer.constructor: a system page holds at least the four header bytes, and the
  capacity is a positive number of pages.
- IpcRefinement.HandleFrames: the callbacks that replies call do nothing further; what they may do in between is
  covered by the state machine, not by the objects.
- IpcOperations.InvokeProxy: as in the state machine, the request counter is not exhausted, and a callback that is
  handed in has not been used before.
- FrameDeserializer.BufferedFrameDeserializer.EndReceive: the caller stops after false, as the client does by shutting
  the socket down.
- FrameDeserializer.Serialize: payloads are shorter than 2^32 bytes.
- TaskRunnerPolling.NoLostWakeUp: the POSIX branch; descriptors are positive, users do not touch the wake-up event's
  descriptor, and the event is a flag that stays set until it is cleared.
- TaskRunner.UnixTaskRunner.RunRound: the tasks themselves run between the rounds; a signal that interrupts poll() is
  not modelled.
- TaskRunnerEffects.QuitEndsTheLoop: one call of Run(), which starts by forgetting any Quit before it.
- TaskRunner.UnixTaskRunner.PostDelayedTask: the clock is a parameter, and deadlines are not cut to 64 bits.
- Metatrace.StepKeeps: atomic operations are sequentially consistent, and the number of appends stays below 2^64 less
  the capacity; meta-tracing is enabled, so there is a task runner to post to; the contents of records, tag filtering,
  Enable and Disable are not modelled.
- SocketSend.SendMsgAll: the poll() between two attempts is a choice of the kernel; the deadline arithmetic of the send
  timeout is not modelled.
- SocketEvents.ListenerGuarantees: sockets made by Connect; listening sockets, accepted and adopted ones, peer
  credentials and addresses are not modelled.
- PeriodicModel.TimerFiresKeeps: the kernel's timer is a descriptor that may become readable at any time.
- PeriodicTask.PeriodicTask.Start: the task is a number that is called, not code; what it does to its own object is
  covered by operations in any order.
- Getopt.Globals.GetoptLong: the same argv and options are passed on every call, nobody sets optind in between, table
  entries take an argument or not, and error messages are not printed.
- StringSplitter.StringSplitter.Next: positions in one array stand for the pointers.
- LogRing.LogRingBuffer.Append: appends one after the other; strings of more than 2^31-1 characters, whose length the
  original casts to int, are not modelled.
- Subprocesses, the watchdog, thread pools and streams, file utilities, HTTP serving, trace processing and the user
  interface are other components and not part of this model.
