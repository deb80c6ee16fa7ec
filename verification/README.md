# Nakama C++ client: a verified model of its request life cycle

The Nakama C++ client sends requests to a game server over one of two transports and promises its caller one thing
above all: every request made is answered once, on the caller's own thread, from `tick`. The REST half of that promise
rests on two layers that must agree. `NHttpClientCppRest` keeps a pending list and a finished list that the user's
thread and the network both change under a mutex. `RestClient` keeps a set of heap contexts that it reaches through
raw pointers captured in transport callbacks, with addresses the allocator reuses. `GrpcClient` does the same job on a
gRPC completion queue. This project models all three and proves what holds on every run: every order of lock sections,
late, repeated and missing completions, exceptions inside API methods, and handlers that send, disconnect and tick
again. Smaller pieces of the library with laws of their own are modelled beside them.

## How it is built

- `Transport.dfy` is the HTTP transport as a state machine: one step is one lock section, or one step the user's thread
  takes between two of them. `TransportRuns.dfy` holds its invariant, `TransportTheorems.dfy` its promises.
- `Registry.dfy` is the heap of contexts and the client's set of pointers, with a ledger of allocations and frees that
  identifies an allocation by a serial number even when its address is used again. `Holders.dfy` and `Clients.dfy`
  state the conservation law both clients keep: every context is in exactly one of four places (freed, running its
  handler, waiting, never sent).
- `RestSystem.dfy` puts `RestClient` on top of the transport; the state includes the stack of ticks and handlers the
  user's thread is inside. `RestRuns.dfy` and `RestTheorems.dfy` hold its invariant and its promises;
  `RestAnswers.dfy` says of every call on every run which function it should be.
- `GrpcSystem.dfy` and `GrpcRuns.dfy` do the same for `GrpcClient`; `Refinement.dfy` shows that both clients refine one
  abstract registry of requests, and where they do not.
- `RestStack.dfy` and `GrpcStack.dfy` are the classes themselves, fields, loops and all. Each method is proved to take
  steps of the state machine, so that every object is, between lock sections, in a state the theorems speak of
  (`AtAnyMoment` reads some of them off the fields). What happens outside the classes is read from a tape: what user
  code does when it has the thread, which address `new` proposes, which completions come in between two lock sections.
  The methods hold for every tape, and each is proved to play it: what the run did and what the tape lost agree item by
  item (`Plays` in `RestTape.dfy` and `GrpcTape.dfy`). `RestSteps.dfy` spells out single steps for them.
- `Responses.dfy` holds the status codes, how each client reads an answer, and, with numbers of its own, what the caller
  should see of it (`AnsweredBy`, `CompletedBy`).
- `UrlEncode.dfy` and `UrlEncodeTheorems.dfy`, `QueryArgs.dfy`, `Session.dfy`, `DataHelper.dfy` and `Release.dfy` are the
  smaller pieces. `Basics.dfy` is shared vocabulary.

## What turned out not to hold

- `urlEncode` gives `sprintf("%X")` a plain `char`. Where `char` is signed every byte above 127 becomes nine characters
  (`%FFFFFFC3` for C3), so a percent-decoder recovers the input exactly if there is no such byte
  (`RoundTripExactlyWhen`). The output is injective all the same.
- Whatever user code does, ticks deliver only what was finished before, exactly if there is a base URI
  (`TicksOnlyDrainExactlyWithABaseUri`). Without one a callback that sends again is fed again before the loop looks, from
  any state and for as long as it likes (`TickWithoutBaseUriNeedNotEnd`).
- `disconnect` is documented to kill all outgoing exchanges at once (include/nakama-cpp/NClientInterface.h:83).
  `RestClient` answers every pending request on the spot, `GrpcClient` answers none: it only shuts the queue down. The
  two agree exactly if nothing is pending (`DisconnectsAgreeOnlyWhenNothingIsPending`); one unanswered request is enough
  to tell them apart (`DisconnectsDifferOnAnUnansweredRequest`).
- A server error reads the same on both clients unless its HTTP status is 200, 600 or 602, which `RestClient` takes for
  its own (`SameErrorOnBothWires`, `StatusHidesTheError`).
- A session whose `exp` in milliseconds does not fit 64 bits wraps and expires early (`ExpiryIsExactExactlyWhenItFits`).
- Filling a list of matches that already has elements leaves their presences and `self` in place
  (`MatchesLeaveExactlyTheirPresences`); filling a realtime error keeps entries of its old context
  (`MergeIsTheDataExactlyWhen`).
- The release script puts the tree back exactly if its temp area held none of the platforms when it started
  (`RestoresExactlyWhenTempIsClean`).

## Model

| member | source | states |
|---|---|---|
| TransportTheorems.CallbackRunsAtMostOnce | src/NHttpClientCppRest.cpp:88-270 | on every run each request's callback runs at most once, and only if it was given one |
| TransportTheorems.DrainedMeansExactlyOnce | src/NHttpClientCppRest.cpp:88-270 | once both lists are empty, every request given a callback has had it run exactly once |
| TransportTheorems.CancelThenTickRunsEverything | src/NHttpClientCppRest.cpp:88-211 | from any state in which the user may call, a cancel and a tick empty both lists, and then every callback ever given has run exactly once |
| TransportTheorems.EachRequestHasOnePlace | src/NHttpClientCppRest.cpp:213-257 | every id ever issued is in exactly one of pending, finished and resolved, and no other number is in any |
| TransportTheorems.NoCallbackGetsANullResponse | src/NHttpClientCppRest.cpp:149-257 | whatever leaves the lists with a callback carries its own request's callback and a response, never through removePendingReq; a cancelled one carries status 602 |
| TransportTheorems.TicksFollowCompletionOrder | src/NHttpClientCppRest.cpp:223-270 | on every run, the ids ticked followed by the ids finished are the ids in the order their answers came in |
| TransportTheorems.RequestNeverWritesThroughADeadPointer | src/NHttpClientCppRest.cpp:99-105 | the unlocked write of the callback, after createReqContext has released the mutex, always finds its context alive |
| TransportTheorems.SearchesRefineMapRemoval | src/NHttpClientCppRest.cpp:223-257 | the linear searches of finishReq and removePendingReq are removal from a map keyed by id; finishReq appends just that entry, with its response, to the finished list |
| TransportTheorems.ACompletionSettlesItsRequest | src/NHttpClientCppRest.cpp:149-187 | on every run a completion takes just its request off the pending list; it joins the finished list if it was given a callback or the exchange failed, and is removed otherwise |
| TransportTheorems.TheAnswerThatCameInIsDelivered | src/NHttpClientCppRest.cpp:149-187 | what comes in for a pending request is what its callback gets in the end, however the run goes on: the answer itself, or status 600 if the task threw |
| TransportTheorems.TheRefusalIsDelivered | src/NHttpClientCppRest.cpp:107-116 | a request refused for want of a base URI gets status 601 and no body, however the run goes on |
| TransportTheorems.ClientFollows | src/NHttpClientCppRest.cpp:65-116 | exactly which steps make, keep and drop the HTTP client, and for which URI |
| TransportTheorems.ResolvedIdsAreInert | src/NHttpClientCppRest.cpp:151-186 | a completion for a request that has left the lists changes nothing at all, after any further run |
| TransportTheorems.DeadTransportIsInert | src/NHttpClientCppRest.cpp:32-73 | once the destructor has cleared `alive`, no sequence of completions changes anything |
| TransportTheorems.QuietRunsOnlyDrain | src/NHttpClientCppRest.cpp:88-97 | with a base URI and no completion, whatever callbacks do (send, cancel, tick) the finished list only loses a prefix, and just the callbacks of that prefix run, in its order |
| TransportTheorems.TickDeliversWhatWasFinished | src/NHttpClientCppRest.cpp:88-97 | so a tick that has emptied the list has delivered exactly what was finished when it began, in that order |
| TransportTheorems.TicksOnlyDrainExactlyWithABaseUri | src/NHttpClientCppRest.cpp:88-116 | from wherever the user may call: between completions, sends, cancels and ticks in any number and nesting only take a prefix off the finished list and deliver just that, in order, if and only if there is a base URI |
| TransportTheorems.ClientHasTheBaseUri | src/NHttpClientCppRest.cpp:75-116 | on every run a client belongs to the current base URI, so the guard of request holds exactly if the base URI is empty |
| TransportTheorems.OnlyRefusalsFeedTheTick | src/NHttpClientCppRest.cpp:107-116 | a step of the user's thread makes the finished list longer if and only if it ends a request on a transport without base URI |
| TransportTheorems.TickWithoutBaseUriNeedNotEnd | src/NHttpClientCppRest.cpp:88-116 | from any state without a base URI, callbacks that send again keep the finished list at its length through any number of turns of tick's loop |
| TransportRuns.ReachableInv | src/NHttpClientCppRest.cpp:27-270 | the invariant behind all of these holds on every run: one place per id, pending ids strictly increasing and below nextReqId, no response while pending, a response once finished, each context with the callback it was given |
| TransportRuns.StepKeeps | src/NHttpClientCppRest.cpp:27-270 | every lock section and every unlocked step keeps that invariant |
| TransportRuns.CreateKeeps | src/NHttpClientCppRest.cpp:213-221 | createReqContext keeps it while the new context still lacks its callback |
| TransportRuns.FinishKeeps | src/NHttpClientCppRest.cpp:223-245 | finishing any id keeps it, except the one request is still building |
| RestTheorems.EveryAnswerFindsItsContext | src/RestClient.cpp:160-274 | on every run the "Not found request context." branch is never taken, no handler is read or deleted through a dead pointer, and no request's handler is called twice |
| RestAnswers.EveryCallIsItsAnswers | src/RestClient.cpp:166-292 | on every run the calls are the answers delivered or cancelled, one for one and in order, each to its own request: successCallback if and only if the status is 200 and what has to be decoded decodes, else the error path, to the request's own callback before the default one, with the code that the status or the server's number stands for |
| RestAnswers.WhatCameInIsHandled | src/NHttpClientCppRest.cpp:149-187 | the answer that came in for a pending request is the one its caller hears of, and a task that threw ends in the error path with ConnectionError |
| RestAnswers.TheRefusalIsHandled | src/NHttpClientCppRest.cpp:107-116 | a request refused for want of a base URI ends in the error path with Unknown |
| RestTheorems.HeldPointersAreDistinctAndRegistered | src/RestClient.cpp:123-170 | with addresses reused freely, the pointers held by pending, finished, running and half-made requests are pairwise distinct, each held once, each registered and still the allocation it was captured for |
| RestTheorems.FreedMeansAnswered | src/RestClient.cpp:166-274 | while the client lives a context has been deleted if and only if its handler was called and has returned; until then it is registered at its own address |
| RestTheorems.EveryContextFreedOnce | src/RestClient.cpp:96-111 | over a whole run that ends with ~RestClient every context is deleted exactly once: answered, cancelled by the destructor, finished but not ticked, or never sent |
| RestTheorems.DrainedMeansEveryHandlerCalled | src/RestClient.cpp:141-274 | with nothing pending, finished or running, every context that was sent has had its handler called exactly once, and no other has |
| RestTheorems.HandlerReturnsToItsOwnContext | src/RestClient.cpp:166-269 | however a handler sends, disconnects or ticks again, with completions arriving throughout, its return erases exactly its own context and finds the calls around it untouched |
| RestTheorems.ReturnErasesItsOwn | src/RestClient.cpp:267-268 | the final delete and erase free one allocation, unregister one pointer, and leave every other context alone |
| RestTheorems.DisconnectResolvesExactlyThePending | src/RestClient.cpp:113-116 | disconnect calls the error path of each pending request, skipping none, in issue order, with CancelledByUser, calls nothing else, and deletes just those contexts; finished answers stay for the next tick |
| RestTheorems.CancelledRequestsAreInert | src/NHttpClientCppRest.cpp:190-257 | after a disconnect, however the run goes on, a completion for a request it cancelled changes nothing in either layer |
| RestTheorems.TransportInside | src/RestClient.cpp:113-164 | the transport inside any run of the two layers is itself a run of the transport machine, so all its theorems apply |
| RestRuns.ReachableInv | src/RestClient.cpp:96-274 | the invariant of the two layers holds on every run: transport closures point into the registry, every context is in exactly one place, calls match places |
| RestRuns.StepKeeps | src/RestClient.cpp:96-274 | every step of either layer keeps that invariant |
| RestRuns.NewContextKeeps | src/RestClient.cpp:123-129 | a context allocated at any free address, one used before included, is confused with no other |
| RestRuns.TickPopKeeps | src/RestClient.cpp:166-194 | popping a finished request and entering its handler keeps the invariant, nested ticks included |
| RestRuns.DisconnectKeeps | src/NHttpClientCppRest.cpp:190-211 | resolving the pending list from the front under the lock keeps the invariant |
| RestRuns.DestroyClientKeeps | src/RestClient.cpp:96-111 | the destructor's disconnect and delete loop keep it |
| Registry.ReleaseAllSound | src/RestClient.cpp:100-110 | the destructor's loop frees every registered context, each once, and leaves the set and the heap empty |
| Registry.EmptyMeansAllFreedOnce | src/RestClient.cpp:96-111 | when nothing is alive, the ledger lists every allocation exactly once |
| Registry.First | src/RestClient.cpp:104 | iteration of the set of pointers begins at its least element |
| Clients.NewConsistent | src/RestClient.cpp:123-129 | the bookkeeping of either client survives an allocation |
| Clients.CallConsistent | src/RestClient.cpp:166-194 | a waiting answer that is delivered moves from waiting to running, and its handler is called for the first time |
| Clients.ReturnConsistent | src/RestClient.cpp:267-268 | a handler that returns moves its context from running to freed, and no other context moves |
| GrpcRuns.EveryEventFindsItsContext | src/GrpcClient.cpp:106-214 | on every run each event off the completion queue finds its own context, and no handler is called twice |
| GrpcRuns.EveryCallIsItsEvents | src/GrpcClient.cpp:154-232 | on every run the calls are the events delivered, one for one and in order, each to its own request: successCallback if and only if ok and status 0, else the error path, with ConnectionError if there was no exchange and the code that the status stands for otherwise |
| GrpcRuns.EventsFollowCompletions | src/GrpcClient.cpp:117-134 | the events delivered followed by those queued are the completions of calls in flight, in the order they came in |
| GrpcRuns.DisconnectStartsNothing | src/GrpcClient.cpp:101-104 | disconnect leaves calls in flight and events alone, and no call joins them however the run goes on |
| GrpcRuns.EveryContextFreedOnce | src/GrpcClient.cpp:84-99 | over a whole run that ends with ~GrpcClient every context is deleted exactly once |
| GrpcRuns.ReachableInv | src/GrpcClient.cpp:84-214 | the tags in flight and in the queue are distinct, live and registered on every run |
| GrpcRuns.QuietRunsOnlyDrain | src/GrpcClient.cpp:106-135 | with no completion, whatever handlers do the queue only loses a prefix, and just its events are answered, in order, each by the handler its request and outcome select |
| GrpcRuns.TickAnswersWhatWasQueued | src/GrpcClient.cpp:106-135 | so a tick that has emptied the queue has answered exactly what was in it when it began |
| Refinement.SameCompletionsSameHandlers | src/GrpcClient.cpp:117-209 | both clients, given the same requests in the same order and the same outcomes in the same order, run the same handlers in the same order with the same error codes, if RestClient cancels none; however issues, completions and ticks interleave, they differ at most in how far they have delivered |
| Refinement.SameRequestsSameHandlers | src/RestClient.cpp:172-264 | if the deliveries come at the same points too, the same requests are also outstanding, in the same order, and the same answers undelivered |
| Refinement.LostConnectionsAreOneCompletion | src/GrpcClient.cpp:202-205 | a task that throws over REST and an event without an exchange over gRPC are the same completion to the registry, a failure with ConnectionError |
| Refinement.DeliveriesFollowCompletions | src/RestClient.cpp:118-274 | in the registry both refine, deliveries are a prefix of the completions of outstanding requests, each to the handler its request and verdict select, on every run without a cancellation |
| Refinement.RestRunRefines | src/RestClient.cpp:113-274 | every run of RestClient on its transport, disconnects included, is a run of one abstract request registry, up to the client's destruction |
| Refinement.DisconnectRefines | src/RestClient.cpp:113-116 | to the registry a disconnect finishes and delivers every outstanding request in the order they were started |
| Refinement.GrpcRunRefines | src/GrpcClient.cpp:106-214 | so is every run of GrpcClient |
| Refinement.DisconnectsAgreeOnlyWhenNothingIsPending | src/GrpcClient.cpp:101-104 | with the same calls made so far, the two disconnects call the same handlers if and only if RestClient has nothing pending |
| Refinement.DisconnectsDifferOnAnUnansweredRequest | src/RestClient.cpp:113-116 | after the same one request both clients are the same to the registry, and their disconnects call different handlers |
| Responses.SameErrorOnBothWires | src/RestClient.cpp:172-249 | the exact HTTP statuses and codes for which a JSON error over HTTP reads as the same error over gRPC |
| Responses.StatusHidesTheError | src/RestClient.cpp:172-209 | a NOT_FOUND that each of the statuses 200, 600 and 602 hides |
| Responses.VerdictAnswers | src/RestClient.cpp:172-292 | of all functions an HTTP answer could run, onResponse and reqError select exactly the right one: status, decoding, body and the seven gRPC numbers, own callback before default |
| Responses.VerdictCompletes | src/GrpcClient.cpp:162-232 | of all functions a completion event could run, onResponse and reqError select exactly the right one |
| Responses.LostConnectionReadsTheSame | src/GrpcClient.cpp:202-205 | status 600 over HTTP and no exchange over gRPC run the same function, with ConnectionError |
| Transport.IndexOf | src/NHttpClientCppRest.cpp:225-234 | the search stops at the first context with the id, or at the end if there is none |
| RestStack.NHttpClientCppRest.constructor | src/NHttpClientCppRest.cpp:53-63 | a new transport has empty lists, next id 1, and is alive |
| RestStack.NHttpClientCppRest.SetUri | src/NHttpClientCppRest.cpp:75-86 | the client survives if and only if it has that URI already |
| RestStack.NHttpClientCppRest.CreateReqContext | src/NHttpClientCppRest.cpp:213-221 | takes the next id and appends a context without callback or response |
| RestStack.NHttpClientCppRest.StoreCallback | src/NHttpClientCppRest.cpp:101-105 | the write through the raw pointer reaches the context with the request's id, whatever the network removed meanwhile |
| RestStack.NHttpClientCppRest.FinishReq | src/NHttpClientCppRest.cpp:223-235 | the loop moves the context with that id, with the response, to the end of the finished list, or does nothing |
| RestStack.NHttpClientCppRest.FinishReqWithError | src/NHttpClientCppRest.cpp:237-245 | the same with a made-up response of the given status and no body |
| RestStack.NHttpClientCppRest.RemovePendingReq | src/NHttpClientCppRest.cpp:247-257 | the loop destroys the context with that id, or does nothing |
| RestStack.NHttpClientCppRest.PopFinishedReq | src/NHttpClientCppRest.cpp:259-270 | takes the head of the finished list, or nothing if it is empty |
| RestStack.NHttpClientCppRest.Continue | src/NHttpClientCppRest.cpp:151-186 | the continuation finishes its request with the answer, removes it without one if there is no callback, or finishes it with status 600 if the task threw, and does nothing once the transport is gone |
| RestStack.NHttpClientCppRest.CancelAllRequests | src/NHttpClientCppRest.cpp:190-211 | the loop is one disconnect step: the client dropped, every pending callback called from the front with status 602, the list empty |
| RestStack.NHttpClientCppRest.Dispatch | src/NHttpClientCppRest.cpp:103-149 | request without client and base URI finishes with status 601, otherwise it hands the network a continuation with its hasCallback flag, or leaves by an exception |
| RestStack.NHttpClientCppRest.Request | src/NHttpClientCppRest.cpp:99-188 | the user's thread does create, store and dispatch, in that order and nothing else, with any completions of the tape between them |
| RestStack.NHttpClientCppRest.DeliverNext | src/NHttpClientCppRest.cpp:92-96 | a turn of tick's loop that gets no input shortens the finished list; the loop ends only on an empty list |
| RestStack.NHttpClientCppRest.Tick | src/NHttpClientCppRest.cpp:88-97 | tick ends for every finite tape, having played it, with the finished list empty and the thread back where it was; on a tape without completions and with a base URI it has delivered exactly what was finished when it began, in order |
| RestStack.RestClient.AtAnyMoment | src/RestClient.cpp:96-274 | between any two lock sections, on the objects: no handler called twice, every call the one its answer asks for, no fault, a context freed if and only if answered and returned, all freed exactly once after the destructor |
| RestStack.RestClient.CreateReqContext | src/RestClient.cpp:123-129 | allocates and registers one context at an unused address |
| RestStack.RestClient.ApiCall | src/RestClient.cpp:294-344 | the user's thread allocates one context at an unused address and then throws, or sends through the transport as far as the exceptions let it, step by step, and returns to user code |
| RestStack.RestClient.ChooseCallback | src/RestClient.cpp:172-292 | the branches of onResponse and reqError run successCallback if and only if the status is 200, there is one, and what has to be decoded decodes; the request's own error callback, the default one or none otherwise, with the right code |
| RestStack.RestClient.ResolveCancelled | src/RestClient.cpp:166-274 | onResponse for a cancelled request calls its error path and frees its context |
| RestStack.RestClient.OnResponse | src/RestClient.cpp:166-274 | with any user code inside the handler, onResponse is a run of the machine that ends inside the same tick |
| RestStack.RestClient.Discard | src/RestClient.cpp:267-268 | the delete and erase take out this context and leave every other registered |
| RestStack.RestClient.DisconnectAll | src/RestClient.cpp:113-116 | is one disconnect step |
| RestStack.RestClient.RunUserCode | src/RestClient.cpp:113-121 | any sequence of calls, ticks and disconnects by the one user thread is carried out item by item, up to the end of the handler, and leaves the objects in a reachable state |
| RestStack.RestClient.Perform | src/RestClient.cpp:113-121 | each item of user code is the operation it asks for |
| RestStack.RestClient.PollNetwork | src/NHttpClientCppRest.cpp:149-187 | the completions between two lock sections all come in, in order, and never touch the registry, the stack or the request under construction |
| RestTape.QuietTickDelivers | src/NHttpClientCppRest.cpp:88-97 | any run of the two layers that plays a tape without completions, with a base URI, and empties the finished list has delivered exactly what was finished when it began |
| RestStack.RestClient.Destroy | src/RestClient.cpp:96-111 | the destructor disconnects, then frees what is left; heap and set end empty |
| GrpcStack.GrpcClient.ApiCall | src/GrpcClient.cpp:936-982 | registers one context at an unused address and gives the queue that address as a tag, or throws between the two |
| GrpcStack.GrpcClient.ChooseCallback | src/GrpcClient.cpp:162-232 | the branches of onResponse and reqError run successCallback if and only if ok, status 0 and there is one; the request's own error callback, the default one or none otherwise, with ConnectionError if not ok |
| GrpcStack.GrpcClient.AtAnyMoment | src/GrpcClient.cpp:84-232 | between library calls, on the object: no handler called twice, every call the one its event asks for, no fault, all contexts freed exactly once after the destructor |
| GrpcStack.GrpcClient.AsyncNext | src/GrpcClient.cpp:117-134 | with a zero deadline the queue gives its oldest event if it has one, else SHUTDOWN once it is shut down and nothing is in flight, else TIMEOUT |
| GrpcStack.GrpcClient.OnResponse | src/GrpcClient.cpp:154-214 | with any user code inside the handler, onResponse is a run of the machine that ends inside the same tick |
| GrpcStack.GrpcClient.Discard | src/GrpcClient.cpp:207-208 | the delete and erase take out this context and leave every other registered |
| GrpcStack.GrpcClient.TakeNext | src/GrpcClient.cpp:117-134 | a turn of tick's loop that gets no input shortens the queue; the loop ends only on an empty queue |
| GrpcStack.GrpcClient.Tick | src/GrpcClient.cpp:106-135 | tick ends for every finite tape, having played it, with the queue empty and the thread back where it was; on a tape without completions it has answered exactly what was queued when it began, in order |
| GrpcStack.GrpcClient.RunUserCode | src/GrpcClient.cpp:101-135 | any sequence of calls, ticks and disconnects by the one user thread is carried out item by item, up to the end of the handler, and leaves the object in a reachable state |
| GrpcStack.GrpcClient.Perform | src/GrpcClient.cpp:101-135 | each item of user code is the operation it asks for |
| GrpcTape.QuietTickAnswers | src/GrpcClient.cpp:106-135 | any run that plays a tape without completions and empties the queue has answered exactly what was queued when it began |
| GrpcStack.GrpcClient.DisconnectAll | src/GrpcClient.cpp:101-104 | shuts the queue down, cancels no call and calls no handler |
| GrpcStack.GrpcClient.Destroy | src/GrpcClient.cpp:84-99 | shuts the queue down and frees every registered context |
| UrlEncodeTheorems.RoundTripExactlyWhen | src/StrUtil.cpp:42-70 | percent-decoding (section 2.1 of RFC 3986) gives the input back if and only if `char` is unsigned or no byte is above 127 |
| UrlEncodeTheorems.Injective | src/StrUtil.cpp:42-70 | urlEncode is injective on all byte strings, for either sign of `char` |
| UrlEncodeTheorems.PrefixFree | src/StrUtil.cpp:49-67 | no code word is the beginning of another byte's, the nine-character ones included |
| UrlEncodeTheorems.ParseInverts | src/StrUtil.cpp:49-67 | one byte can be read back off the front of the output, whatever follows |
| UrlEncodeTheorems.EncodeConcat | src/StrUtil.cpp:49-67 | encoding distributes over concatenation |
| UrlEncodeTheorems.OutputIsPercentText | src/StrUtil.cpp:54-66 | the output has only the 66 unreserved characters of section 2.3 of RFC 3986, by code point, and triples of `%` and two upper-case digits |
| UrlEncodeTheorems.LengthBounds | src/StrUtil.cpp:49-67 | between n and 3n characters for an unsigned `char`, at most 9n for a signed one |
| UrlEncodeTheorems.DecodedLength | src/StrUtil.cpp:58 | with a signed `char`, decoding gives six bytes too many for every byte above 127 |
| UrlEncodeTheorems.SignedCharBreaksUtf8 | src/StrUtil.cpp:58 | the byte C3 is an input whose round trip fails |
| UrlEncodeTheorems.CodeWordShape | src/StrUtil.cpp:54-66 | a byte stays as it is if and only if RFC 3986 lists it as unreserved; else it becomes `%` and its two digits, or `%FFFFFF` and its two digits |
| UrlEncode.SprintfX | src/StrUtil.cpp:46-58 | the digits and the terminator of any 32-bit value fit the ten-byte buffer |
| UrlEncode.AppendByte | src/StrUtil.cpp:51-66 | the loop body appends one code word: an unreserved byte as it is, a `%` and more for any other |
| UrlEncode.UrlEncode | src/StrUtil.cpp:42-70 | the loop computes the encoding that the theorems are about, zero bytes included |
| QueryArgs.BuildIsAStableSort | src/NHttpClientCppRest.cpp:121-124 | after any emplace calls iteration is sorted by key and gives each key's values in the caller's order, duplicates kept |
| QueryArgs.EmplaceValues | include/nakama-cpp/NHttpTransportInterface.h:28 | emplace puts a value last among those of its key and disturbs no other key |
| QueryArgs.EmplaceSorted | include/nakama-cpp/NHttpTransportInterface.h:28 | emplace keeps the multimap in key order |
| QueryArgs.LessIsLexicographic | include/nakama-cpp/NHttpTransportInterface.h:28 | key order is the lexicographic order of `std::string` |
| QueryArgs.EmplaceAll | src/RestClient.cpp:1186-1199 | a loop of getUsers inserts every value in order |
| QueryArgs.RestUsersArgs | src/RestClient.cpp:1184-1201 | getUsers sends each list under its own key, in order, duplicates kept, and nothing else |
| QueryArgs.UserCallsValues | src/RestClient.cpp:1184-1201 | the three keys do not mix, and no other key has a value |
| QueryArgs.GrpcUsersRequest | src/GrpcClient.cpp:962-977 | the repeated fields are the caller's three lists, the same sequences that the REST request carries |
| Session.PayloadIsTheMiddleSegment | src/DefaultSession.cpp:38-46 | for h.p.s with no dot in h and p the decoded segment is exactly p, whatever s is |
| Session.PayloadNeedsTwoDots | src/DefaultSession.cpp:38-46 | there is a segment to decode if and only if the token has at least two dots |
| Session.MalformedTokenIsExpired | src/DefaultSession.cpp:30-157 | a session from a token with fewer than two dots is expired at every time and has no variables |
| Session.ExpiryIsExactExactlyWhenItFits | src/DefaultSession.cpp:61-68 | isExpired is exact in milliseconds at every 64-bit time if and only if `exp` times 1000 is below 2^64 |
| Session.ExpiryOfToken | src/DefaultSession.cpp:30-142 | for every h.p.s with no dot in h and p, from token to isExpired: expired at every time if p does not decode or has no `exp`, else from `exp` in milliseconds on if that fits 64 bits, and never later |
| Session.ExpiryWraps | src/DefaultSession.cpp:66 | a value of `exp` that wraps |
| Session.CollectKeepsTheFirst | src/DefaultSession.cpp:82-97 | the `vrs` loop keeps, for each name, the first member with a string value |
| Session.VariableOfToken | src/DefaultSession.cpp:30-157 | for every h.p.s with no dot in h and p, from token to getVariable: the first string-valued `vrs` member of that name in p, and empty if p does not decode or has none |
| Session.DefaultSession.constructor | src/DefaultSession.cpp:30-102 | every field from the claims in the token, or all empty |
| Session.DefaultSession.ReadClaims | src/DefaultSession.cpp:61-98 | the members are read as the claims say, and the `vrs` loop collects them |
| DataHelper.AssignRepeated | src/DataHelper.h:113-123 | element i of the result is item i written over what was there, or over a new element |
| DataHelper.AssignMap | src/DataHelper.h:125-134 | a map is replaced entirely, whatever it held and whatever the order of iteration |
| DataHelper.MatchesLeaveExactlyTheirPresences | src/DataHelper.cpp:186-197 | filling a match list equals filling a new one if and only if no overwritten element holds presences or a self |
| DataHelper.RecordsLeaveNothing | src/DataHelper.cpp:162-184 | filling a list of leaderboard records equals filling a new one, whatever it held |
| DataHelper.RecordsKeepTheData | src/DataHelper.cpp:170-184 | a filled list of leaderboard records shows each item's data, all twelve fields, if and only if its times in milliseconds fit 64 bits |
| DataHelper.MatchesKeepTheData | src/DataHelper.cpp:191-197 | a filled list of matches shows each item's four fields |
| DataHelper.MergeIsTheDataExactlyWhen | src/DataHelper.cpp:266-269 | the context of a realtime error equals the data if and only if every old entry is in the data |
| DataHelper.LeaderboardRecordList.Assign | src/DataHelper.cpp:162-184 | both record lists show the server's data item by item, and with both cursors are as in a new list |
| DataHelper.MatchList.Assign | src/DataHelper.cpp:186-197 | the matches show the server's data and keep the presences and the self of their places, so they are as in a new list exactly if there were none |
| DataHelper.RtError.Assign | src/DataHelper.cpp:261-270 | message and code are replaced, the context is merged with the old entries winning |
| Release.RestoresExactlyWhenTempIsClean | release/release.py:103-108 | the script restores the tree if and only if the temp area held none of the listed platforms |
| Release.CleanRunRestoresTheTree | release/release.py:72-108 | from a clean temp area, for any list of platforms: no move fails, archive i holds the sdk without the other platforms, and the final tree is the initial one |
| Release.MoveFolderKeepsEveryFile | release/release.py:46-48 | a move takes all files of a folder along, behind those of a folder of that name that is there, touches no other folder, and fails exactly if that one has such a folder inside |
| Release.MoveTracks | release/release.py:46-70 | each folder is in exactly one of sdk and temp, for both kinds of library, and no move lands on a folder that is there |
| Release.PackTracks | release/release.py:103-105 | so through every turn of the packing loop |
| Release.Script.MovePlatformToTemp | release/release.py:54-61 | moves both folders of a platform out, existing destinations and exceptions included |
| Release.Script.MovePlatformToSdk | release/release.py:63-70 | moves both folders of a platform back |
| Release.Script.MoveAllToTemp | release/release.py:72-75 | the loop over all platforms |
| Release.Script.ReleasePlatform | release/release.py:77-85 | packs an archive of the sdk as it stands once the platform is back |
| Release.Script.Execute | release/release.py:103-108 | the two main loops compute the run that the theorems are about |

## Left out

- gRPC, cpprest, pplx, protobuf and rapidjson are the environment: they post events, completions and parse results.
- A completion is a status code, how the body reads, and whether it decodes. Error texts, the reason phrase and logging are not modelled, only error codes and which callback runs.
- Bodies that rapidjson answers with an assertion (a JSON error without `message` or `code`, a fractional `code`, a fractional or negative `exp`) are outside the model.
- Base64 and JSON decoding of a token is a parameter of the session.
- `nextReqId` is unbounded; its wrap after 2^64 requests is not modelled.
- Responses.SameErrorOnBothWires: takes the numbers of the gRPC status codes from the gRPC specification, the header not being part of this model.
- RestStack.NHttpClientCppRest.CancelAllRequests: assumes that the callbacks it runs do not call the transport, since the source runs them under a mutex that is not recursive.
- RestStack.RestClient.RunUserCode: leaves out handlers that throw, handlers that destroy the client, a change of the default error callback during a run, and calls from a second thread (README.md:148-150 allows one).
- RestStack.NHttpClientCppRest.Request: is modelled under RestClient, which passes a callback every time; a request without one runs in Transport's machine and through Dispatch, Continue and RemovePendingReq.
- RestTape.QuietTickDelivers: speaks of tapes; that a step inside the transport threw is pinned by ApiCall, not by the tape's account of the run.
- GrpcStack.GrpcClient.ApiCall: is not made after `Shutdown`, which gRPC forbids; the tape's items that ask for it are passed over.
- RestSystem does not tick a transport that has outlived its client; the source would run callbacks of a destroyed object.
- Request contexts are values in lists and a heap keyed by address, not Dafny objects: each has one owner in the source too, and the one raw write through a pointer that is not the owner is an update whose target is proved alive.
- `std::function` copies that throw for lack of memory, and memory ordering beyond the mutex, are not modelled.
- The continuation reads the body before it takes the lock; a failure there is the `Threw` outcome.
- UrlEncode.UrlEncode: takes `isalnum` in the C locale; for a negative `char` the call is undefined in C and is taken to answer no.
- Building the URI, the headers, the method and the body of a request is left out, except for the order of the query arguments.
- The other endpoints repeat create, authenticate and send; getUsers and authenticateDevice stand for them.
- DataHelper.AssignRepeated: a missing wrapper message reads as its default, as protobuf's accessors do; record copies other than match, leaderboard record and realtime error are left out.
- Release.Script.ReleasePlatform: leaves out the archiver's failure, which ends the script with the tree moved, the removal of an old archive, and the ignore list for android.
- The realtime client, its websocket transport and `createRtClient` are left out.
