# NimbleCAS verification models

Models of the parts of NimbleCAS that hold real state, protocol or arithmetic, with proofs about them:

- **Distributed task broker over gRPC** — `TaskQueue`, `Cluster`, `Retry`, `RetryFacts`, `RingCoverage`,
  `Fencing`, `PortModel`, `PortAnswers`, `LeaseFence`, `ChannelModel`, `Operations`, `Retention`, `Delivery`,
  `Repetition`, `LostAnswers`, `RingInterleaving` are the protocol; `Remote`, `GrpcBrokerPort`, `GrpcResultChannel`, `CapiBrokerPort` are the objects that run it, each
  method proved equal to its operation in the protocol.
- **Task wire format** — `LittleEndian`, `TaskCodec`.
- **LaTeX to MathML** — `Scanning`, `LatexTokens`, `LatexSymbols`, `LatexParser`, `LatexArity`, `Markup`, `LatexToMathML`,
  `LatexMeaning`.
- **Constraint problems and SAT input** — `Csp`, `CspMeaning`, `CspPartition`, `Pairs`, `Queens`, `Decimal`, `Dimacs`, `DimacsLayout`,
  `DimacsRoundTrip`.
- **Kernels and numerics** — `CounterRng`, `PathWords`, `MonteCarlo`, `CsrSpmv`, `SignTest`, `AxisTicks`, with `Reals`, `DivMod`.

## How the environment is modelled

The cluster is one queue and one result store. A request to a node may be refused, fail to arrive, **take effect
with its reply lost**, fail with another error, or be answered. Between two requests of a call other clients may
have any number of requests carried out, each at its own server time, so that a rival's lease can be granted and
expire in between (`Cluster.RivalLeaseCanExpire`); other threads may swap the shared ring index, the leader hint may
say anything, and an attempt may take any time. All of that is a `Script`, a pair of arbitrary functions, and what is
proved for every script holds for all these environments. The client's clock never runs backwards and a pause lasts
at least as long as asked. The retry loop stops at a deadline that is five seconds of that clock away.

C buffers live in a `CHeap` that never reuses an address and lets only live buffers be read or freed; a method that
leaves `live` as it was has freed every buffer it received exactly once, after the copy.

## What the models found

- A `complete` whose answer is lost is retried, the retry is refused, and the caller is told the task failed
  although it is completed (`LostAnswers.CompletedButReportedFailed`). The report is right exactly when no attempt
  took effect with its answer lost (`LeaseFence.ReportIsRightExactly`).
- A consuming read can lose a result the same way (`LostAnswers.PutButNeverDelivered`). With nobody else touching
  the result, it is delivered exactly if the first attempt that is carried out is answered
  (`Delivery.DeliveredExactly`).
- The DIMACS reader is meant to refuse anything malformed, but a bare sign, or a number that does not fit 64 bits,
  is dropped without a word when it ends its line. `DimacsLayout.AcceptedExactly` gives the whole grammar of accepted
  files, with that token as the one thing in it that is not read (`DimacsRoundTrip.DroppedExactly`), and
  `DimacsRoundTrip.OverflowGivesTheEmptyFormula` shows a clause disappear.
- The `all_different` encoding of one queen has a constraint over a single variable, which validation refuses; the
  pairwise encoding is accepted (`Queens.EncodingValidExactly`), although both have the same solutions
  (`Queens.EncodingsAgree`).
- Splitting a constraint problem by numbered prefixes visits an assignment twice exactly when a fixed domain repeats
  a value (`CspPartition.NeverTwiceExactly`). src/csp/csp.cppm:5 leaves removing duplicates to the caller, and
  validation does not check it (`CspPartition.ValidCanRepeat`).
- `\left` or `\right` with nothing to show can leave a fraction or a script one child short. The whole output has its
  arities right exactly if none stands at an operand of a fraction or at a base whose scripts survive
  (`LatexToMathML.ArityHoldsExactly`).
- A routing tag can match another tag's filter by its trailer alone (`TaskCodec.NestedTagMatchesTwice`), exactly if the
  magic followed by the tag contains that filter, which is a check on the two tags
  (`TaskCodec.OtherFilterMatchesExactly`). The tags of the placements contain none (`TaskCodec.CleanTagContainsNone`,
  `TaskCodec.PlacementTagsAreClean`).
- A retried `enqueue` adds a task for every answer that is lost, and a retried lease takes a lease for each: the exact
  numbers are `Repetition.EnqueueAddsExactly` and `Repetition.LeaseTakesExactly`.
- With a minimum above the maximum the tick step is one whatever the data (`AxisTicks.InvertedStepIsOne`).
- `encode_task` accepts operation names that `decode_task` refuses; the round trip holds exactly for names of
  characters 1 to 127 (`TaskCodec.EncodedDecodesExactly`). Version 1 bytes are canonical exactly when the reserved
  field is zero, which `decode_task` does not check (`TaskCodec.CanonicalExactly`).
- docs/reference/taskdag_sgee.md says a node that is not the leader answers `StaleToken`; the code treats
  `SGEE_ERR_CONSENSUS_BASE` that way, and the models follow the code.

## Model

| member | source | states |
|---|---|---|
| TaskQueue.EnqueuedKeepsValid | src/taskdag_sgee/taskdag_sgee.cppm:374-394 | adding a task keeps the broker invariant: attempts within their limit, every token granted once, completions final and earned by a lease, and every token ever granted either held or ended |
| TaskQueue.LeaseKeepsValid | src/taskdag_sgee/taskdag_sgee.cppm:396-428 | a filtered lease of the earliest match under a fresh token keeps it |
| TaskQueue.EndKeepsValid | src/taskdag_sgee/taskdag_sgee.cppm:430-466 | completing or failing the lease that is held keeps it, the token being used up |
| TaskQueue.ExtendedKeepsValid | src/taskdag_sgee/taskdag_sgee.cppm:468-485 | a heartbeat, accepted or fenced off, keeps it |
| TaskQueue.SweptKeepsValid | src/taskdag_sgee/taskdag_sgee.cppm:487-505 | sweeping expired leases keeps it |
| TaskQueue.LeasedExactly | src/taskdag_sgee/taskdag_sgee.cppm:404-428 | a lease goes to the earliest pending match and to nothing else: one attempt more, the next token, visible again after the timeout asked for or thirty seconds; without a match nothing changes |
| TaskQueue.ExtendedExactly | src/taskdag_sgee/taskdag_sgee.cppm:478-484 | a heartbeat succeeds exactly if the lease is held under its token, and then moves that deadline, by the extension asked for or ten seconds, and nothing else |
| TaskQueue.SweptExactly | src/taskdag_sgee/taskdag_sgee.cppm:494-503 | a sweep ends exactly the leases whose deadline has come, each task going back to pending while it has attempts left and else being dead; every other task is untouched |
| TaskQueue.TriedUntilTheLimit | src/taskdag_sgee/taskdag_sgee.cppm:460-464 | however its leases end short of completion, by fail or by expiry, a task is pending again until it has had exactly its limit of tries, and then is dead |
| TaskQueue.FirstMatch | src/taskdag_sgee/taskdag_sgee.cppm:404-427 | the earliest pending task that matches, none before it |
| TaskQueue.MatchesExactly | src/taskdag_sgee/taskdag_sgee.cppm:216-227 | a filter matches exactly the payloads it is a stretch of; the empty filter matches every payload |
| Cluster.AcceptsExactly | src/taskdag_sgee/taskdag_sgee.cppm:374-518 | when the broker accepts each request: a lease if some pending task matches, a complete, fail or heartbeat if the lease is held under that very token, a state query if the task exists, with its state |
| Cluster.ExecuteAllKeepsValid | src/taskdag_sgee/taskdag_sgee.cppm:374-517 | any requests of any clients in any order, each at its own server time, keep the broker invariant |
| Cluster.EndedIsNeverHeldAgain | src/taskdag_sgee/taskdag_sgee.cppm:440-444 | a token whose lease has ended never passes the fence again, whatever all clients do |
| Cluster.RivalLeaseCanExpire | src/taskdag_sgee/taskdag_sgee.cppm:487-505 | between two of our requests another client's lease can be granted, expire and be swept, the task retried or dead by its limit |
| RetryFacts.CallLog | src/taskdag_sgee/sgee_backend_grpc.cpp:284-309 | a call sends one and the same request on every attempt; all attempts but a final answer were retryable; a final answer is what the last attempt saw |
| RetryFacts.AttemptsBounded | src/taskdag_sgee/sgee_backend_grpc.cpp:166-167 | on an n-endpoint ring a call makes at most 100 n + 1 attempts |
| RetryFacts.LeaderlessUsesWholeBudget | src/taskdag_sgee/sgee_backend_grpc.cpp:282-309 | the bound is met: with no leader and attempts that take no time a call makes exactly 100 n + 1 attempts in exactly the budget and fails |
| RetryFacts.PausesPerSweep | src/taskdag_sgee/sgee_backend_grpc.cpp:304-307 | k failures that another attempt follows cause exactly floor(k / n) pauses |
| RingCoverage.RoundRobin | src/taskdag_sgee/sgee_backend_grpc.cpp:188-207 | undisturbed and without a usable hint, attempts visit the endpoints in ring order from the active one |
| RingCoverage.EverySweepIsComplete | src/taskdag_sgee/sgee_backend_grpc.cpp:188-207 | then any n consecutive attempts reach every endpoint exactly once |
| RingCoverage.DecisiveEndpointReached | src/taskdag_sgee/sgee_backend_grpc.cpp:284-308 | so one endpoint that never answers retryably ends the call within n attempts, and with an answer, unless the deadline passed first or an endpoint has no client |
| RingCoverage.HintIsFollowed | src/taskdag_sgee/sgee_backend_grpc.cpp:194-202 | if the hint always names one endpoint, one of the first two attempts goes there |
| RingCoverage.HintedDecisionReached | src/taskdag_sgee/sgee_backend_grpc.cpp:194-202 | and if that endpoint decides, the call ends within two attempts, and with an answer, unless the deadline passed first or an endpoint has no client |
| RingCoverage.RotatesExactly | src/taskdag_sgee/sgee_backend_grpc.cpp:188-207 | a rotation leaves the failed endpoint for the hinted one if that is another endpoint of the ring, else for the next, and counts one; a ring of one endpoint or an index moved meanwhile is left alone |
| RingCoverage.RotationsAreFailures | src/taskdag_sgee/sgee_backend_grpc.cpp:284-306 | over a whole undisturbed call the rotation count grows by exactly the attempts that failed retryably, the last one before giving up included |
| RingInterleaving.EveryRunKeepsInv | src/taskdag_sgee/sgee_backend_grpc.cpp:188-207 | in every interleaving of threads sharing a ring, relaxed loads included, every value of the index stays below n, every swap changes it, and the rotation counter plus pending increments is the number of swaps |
| RingInterleaving.ReductionIsIdle | src/taskdag_sgee/sgee_backend_grpc.cpp:285 | so the reduction modulo n never changes a value a load can return |
| RingInterleaving.SwapFailsOnlyToARival | src/taskdag_sgee/sgee_backend_grpc.cpp:203-206 | a successful swap changes the index, a failed one means another swap comes after the value this thread loaded |
| RingInterleaving.LoneAttemptRotates | src/taskdag_sgee/sgee_backend_grpc.cpp:188-207 | a failed attempt with no other thread's step in between turns a ring of several endpoints once and counts one, unless the index it loaded is no longer the latest |
| RingInterleaving.OutOfRangeIsForever | src/taskdag_sgee/sgee_backend_grpc.cpp:203-204 | an index outside the ring could never be swapped away again: the range invariant is what keeps failover alive |
| Fencing.CallEndsAtMostOnce | src/taskdag_sgee/sgee_backend_grpc.cpp:397-483 | however often a call repeats its request, at most one attempt ends the lease, and the history then records exactly that lease's end |
| Fencing.NothingAfterTheEnd | src/taskdag_sgee/sgee_backend_grpc.cpp:397-483 | once the lease has ended no repetition takes effect |
| Fencing.ReportedIffServed | src/taskdag_sgee/sgee_backend_grpc.cpp:416-436 | a call reports success exactly when some attempt took effect and its answer came back |
| Fencing.CallOnQueue | src/taskdag_sgee/sgee_backend_grpc.cpp:284-309 | after a whole call, rivals included, the broker invariant holds and its history only grew |
| LeaseFence.RunKeepsFence | src/taskdag_sgee/sgee_backend_grpc.cpp:369-373 | through every run of port operations: each entry of the lease table is the token of the latest lease received and no call has tried to end it; every use in the log was proper |
| LeaseFence.LatestTokenIsSent | src/taskdag_sgee/sgee_backend_grpc.cpp:397-524 | every attempt of every complete, fail and heartbeat carries the wire token of the latest lease of that task |
| LeaseFence.OneEndPerLease | src/taskdag_sgee/sgee_backend_grpc.cpp:397-483 | after a call has tried to end a lease nothing but that same request of that same call is sent for it, so no lease is ended both ways |
| LeaseFence.EndedLeaseIsUnusable | src/taskdag_sgee/sgee_backend_grpc.cpp:397-524 | over whole runs: once a complete or fail got past the token check, whatever it returned and whatever follows, until the next lease of the task nothing is sent for it and every complete, fail and heartbeat of it, with any token, is refused without a request |
| LeaseFence.SilentUntilNextLease | src/taskdag_sgee/sgee_backend_grpc.cpp:397-524 | without an entry nothing is sent for the task until a new lease of it is received |
| LeaseFence.EndIsReportedTruthfully | src/taskdag_sgee/sgee_backend_grpc.cpp:397-483 | a call past the check ends exactly the lease held, at most once; it succeeds exactly when the effective attempt was answered, and the queue has then just moved the task out of that lease: completed, or failed and pending until its limit, then dead |
| LeaseFence.ReportIsRightExactly | src/taskdag_sgee/sgee_backend_grpc.cpp:397-483 | success is reported if and only if some attempt took effect, exactly when no effective attempt lost its answer |
| LeaseFence.RunKeepsQueue | src/taskdag_sgee/sgee_backend_grpc.cpp:274-571 | through every run the broker invariant holds, whatever other clients do |
| LeaseFence.SuccessMeansEnded | src/taskdag_sgee/sgee_backend_grpc.cpp:397-483 | over whole runs: success of complete or fail means the task left its latest lease during that call: completed, or failed and pending until its limit, then dead |
| PortModel.ApplyTransacts | src/taskdag_sgee/sgee_backend_grpc.cpp:274-571 | every operation either sends nothing and changes nothing, or is one call whose outcome alone decides the lease table |
| PortAnswers.EnqueuedTaskIsThere | src/taskdag_sgee/sgee_backend_grpc.cpp:274-310 | the id enqueue returns names a new, pending, untried task with that payload and attempt limit, the last of the queue, behind all the tasks the answered request met |
| PortAnswers.LeasedTaskIsHeld | src/taskdag_sgee/sgee_backend_grpc.cpp:312-380 | a lease handed out is of the earliest pending match, held at the broker under the token the table keeps, a token granted never before, until the answering server's time plus the timeout; it is one attempt further and no other task was touched |
| PortAnswers.NothingLeasedNothingMatches | src/taskdag_sgee/sgee_backend_grpc.cpp:360-362 | when leasing finds nothing, no pending task of the cluster matches the filter and the table is unchanged |
| PortAnswers.HeartbeatKeepsTheLease | src/taskdag_sgee/sgee_backend_grpc.cpp:485-524 | a successful heartbeat means the broker holds the lease under the stored token, its deadline the answering server's time plus the extension |
| PortAnswers.ReportedStateIsTrue | src/taskdag_sgee/sgee_backend_grpc.cpp:531-571 | the state reported is the one the task is in, and the cluster is left as the answering request met it |
| Repetition.EnqueueAddsExactly | src/taskdag_sgee/sgee_backend_grpc.cpp:274-310 | nobody else at work, one enqueue adds as many tasks as attempts were carried out, one for each lost answer and one if it reports success, all with its payload; a reported success added one exactly if no answer was lost |
| Repetition.LeaseTakesExactly | src/taskdag_sgee/sgee_backend_grpc.cpp:312-395 | likewise one lease call takes one lease for each granted attempt whose answer was lost, and one if it hands one out, the only one the table learns of |
| Operations.PortKeepsBudget | src/taskdag_sgee/sgee_backend_grpc.cpp:166-167 | every port operation on n endpoints sends at most 100 n + 1 requests and, if its last attempt was retryable and every endpoint has a client, gives up no earlier than five seconds after it began |
| Operations.ChannelKeepsBudget | src/taskdag_sgee/sgee_backend_grpc.cpp:628-667 | the same for every operation of the result channel |
| Operations.LeaderlessPort | src/taskdag_sgee/sgee_backend_grpc.cpp:282-309 | against a cluster without a leader every port operation that sends anything sends exactly 100 n + 1 requests over exactly five seconds |
| Operations.LeaderlessChannel | src/taskdag_sgee/sgee_backend_grpc.cpp:628-667 | and so does every operation of the result channel |
| Operations.FailureIsLateOrRefused | src/taskdag_sgee/sgee_backend_grpc.cpp:284-309 | with every endpoint open a call fails only after five seconds or on a refusal by the cluster |
| Operations.EnqueueSucceedsExactly | src/taskdag_sgee/sgee_backend_grpc.cpp:274-310 | enqueue returns an id exactly if some attempt was answered |
| Operations.LeaseSucceedsExactly | src/taskdag_sgee/sgee_backend_grpc.cpp:312-395 | leasing hands out a lease exactly if some attempt was granted one and answered, and finds nothing exactly if some attempt was answered so |
| Operations.HeartbeatSucceedsExactly | src/taskdag_sgee/sgee_backend_grpc.cpp:485-524 | a heartbeat succeeds exactly if the port holds a lease with this token and some attempt was accepted and answered |
| Operations.StateSucceedsExactly | src/taskdag_sgee/sgee_backend_grpc.cpp:531-571 | a state is reported exactly if some attempt was answered with it |
| Operations.PutSucceedsExactly | src/taskdag_sgee/sgee_backend_grpc.cpp:622-655 | a put succeeds exactly if some attempt was answered |
| Operations.TryGetSucceedsExactly | src/taskdag_sgee/sgee_backend_grpc.cpp:657-702 | a read succeeds, with a result or without, exactly if some attempt was answered |
| GrpcBrokerPort.BrokerPort.Enqueue | src/taskdag_sgee/sgee_backend_grpc.cpp:274-310 | the loop with its early exits and its fresh deadline is the enqueue operation of the protocol, in result and in whole state |
| GrpcBrokerPort.BrokerPort.LeaseFiltered | src/taskdag_sgee/sgee_backend_grpc.cpp:312-395 | likewise for leasing; the C heap is left as it was on every exit |
| GrpcBrokerPort.BrokerPort.AttemptLease | src/taskdag_sgee/sgee_backend_grpc.cpp:332-380 | one attempt copies the payload before its buffer is freed, and frees every buffer it was handed |
| GrpcBrokerPort.BrokerPort.Complete | src/taskdag_sgee/sgee_backend_grpc.cpp:397-439 | likewise for completing, the lease entry erased on each exit past the check |
| GrpcBrokerPort.BrokerPort.Fail | src/taskdag_sgee/sgee_backend_grpc.cpp:441-483 | likewise for failing |
| GrpcBrokerPort.BrokerPort.Heartbeat | src/taskdag_sgee/sgee_backend_grpc.cpp:485-524 | likewise for heartbeats, the entry kept |
| GrpcBrokerPort.BrokerPort.State | src/taskdag_sgee/sgee_backend_grpc.cpp:531-571 | likewise for the state query, a state code from a newer server being an error |
| Remote.EndpointRing.RotateOnError | src/taskdag_sgee/sgee_backend_grpc.cpp:188-207 | turns to the hinted endpoint if usable, else to the next, and counts, exactly if the index still was this attempt's |
| Remote.CHeap.Free | src/taskdag_sgee/sgee_backend_grpc.cpp:46-56 | only a live buffer can be freed, and it is gone |
| GrpcResultChannel.ResultChannel.Put | src/taskdag_sgee/sgee_backend_grpc.cpp:622-655 | the loop is the put operation of the protocol |
| GrpcResultChannel.ResultChannel.TryGet | src/taskdag_sgee/sgee_backend_grpc.cpp:657-702 | likewise for reading; not finding a result is an answer; the C heap is left as it was |
| GrpcResultChannel.ResultChannel.Get | src/taskdag_sgee/sgee_backend_grpc.cpp:704-713 | reading where a missing result is an error |
| Retention.RunRetains | src/taskdag_sgee/sgee_backend_grpc.cpp:730-742 | while nobody consumes on reading, the store holds the last effective payload of every task through every run |
| Retention.TryGetReturnsLatest | src/taskdag_sgee/sgee_backend_grpc.cpp:657-702 | then every read that gets a reply returns exactly that payload, or nothing if there was none |
| Retention.PutIsLatest | src/taskdag_sgee/sgee_backend_grpc.cpp:622-655 | a put that reports success has made its payload the latest, whoever consumes or puts besides |
| Retention.RunHandsOutOnce | src/taskdag_sgee/sgee_backend_grpc.cpp:657-702 | with consumption on reading no effective put is delivered by two answers |
| Delivery.DeliveredExactly | src/taskdag_sgee/sgee_backend_grpc.cpp:657-702 | with a result stored and nobody else touching it, a consuming read returns it exactly if the first attempt carried out was answered, finds nothing exactly if a later one was answered instead, and fails otherwise |
| Delivery.DeliveryIsFirst | src/taskdag_sgee/sgee_backend_grpc.cpp:657-702 | whatever other clients do, a stored put is delivered only by the first attempt that was carried out |
| LostAnswers.CompletedButReportedFailed | src/taskdag_sgee/sgee_backend_grpc.cpp:416-439 | a run in which complete reports failure although the task is completed |
| LostAnswers.PutButNeverDelivered | src/taskdag_sgee/sgee_backend_grpc.cpp:657-702 | a run of the case above in which the read finds nothing although a result is stored and nobody else reads it |
| CapiBrokerPort.CapiPort.LeaseFiltered | src/taskdag_sgee/sgee_backend_capi.cpp:89-151 | refuses without the filtered entry point, else asks the one right entry point; on every exit the C heap is left as it was |
| CapiBrokerPort.RoutesExactly | src/taskdag_sgee/sgee_backend_capi.cpp:89-151 | closed, or with a filter the library has no entry point for, nothing is called; else one entry point once, an error or an empty answer leaving the queue as it was, and nothing is found exactly if no pending task matches |
| CapiBrokerPort.FilteredTakesEarliestMatch | src/taskdag_sgee/sgee_backend_capi.cpp:96-119 | a filtered lease takes the earliest match, hands out its id, new token, attempt and payload, and changes no other task; without a match the queue is unchanged; without the entry point nothing is called |
| CapiBrokerPort.UnfilteredTakesHead | src/taskdag_sgee/sgee_backend_capi.cpp:110-119 | an empty filter leases the head of the line through the original entry point |
| TaskCodec.EncodeTask | src/taskdag_sgee/taskdag_sgee.cppm:1237-1278 | the size loop and the writing loops produce the framed bytes, or the right error, exactly as their total size and name length decide |
| TaskCodec.DecodeArguments | src/taskdag_sgee/taskdag_sgee.cppm:1325-1357 | the argument loops accept exactly when the declared lengths add up to the remaining bytes, and cut them there |
| TaskCodec.EncodesExactly | src/taskdag_sgee/taskdag_sgee.cppm:1237-1278 | encoding refuses exactly an empty name, one longer than 256 bytes, and a task past the size cap, and what it writes begins with the magic, version 1 and the task's own fields, lowest byte first |
| TaskCodec.EncodedDecodesExactly | src/taskdag_sgee/taskdag_sgee.cppm:1237-1364 | an encoded task decodes to itself if it is within the wire limit and its name holds characters 1 to 127, and is refused otherwise |
| TaskCodec.DecodedEncodes | src/taskdag_sgee/taskdag_sgee.cppm:1280-1364 | version 1 bytes are the encoding of what they decode to but for the reserved field |
| TaskCodec.CanonicalExactly | src/taskdag_sgee/taskdag_sgee.cppm:1250-1252 | they are that encoding exactly when the reserved field is zero |
| TaskCodec.TaggingRoundTrips | src/taskdag_sgee/taskdag_sgee.cppm:1394-1465 | a tag written is read back, removing it gives the untagged bytes, and the tagged bytes match the tag's own filter |
| TaskCodec.TagsExactly | src/taskdag_sgee/taskdag_sgee.cppm:1394-1434 | tagging fails exactly on bytes that are no task, a tag longer than 240 bytes or a result past the cap; otherwise version 2, the routing magic, the tag and its length are written |
| TaskCodec.TaggedIsRebuilt | src/taskdag_sgee/taskdag_sgee.cppm:1436-1465 | any bytes with a tag are exactly what tagging makes of their untagged bytes and that tag |
| TaskCodec.RetaggingReplaces | src/taskdag_sgee/taskdag_sgee.cppm:1409-1418 | tagging again gives what tagging once with the second tag gives |
| TaskCodec.DecodingIgnoresTheTag | src/taskdag_sgee/taskdag_sgee.cppm:1290-1303 | tagged bytes within the limit decode to what the untagged bytes decode to |
| TaskCodec.VersionTwoDecodesExactly | src/taskdag_sgee/taskdag_sgee.cppm:1280-1303 | version 2 bytes decode exactly if they are a tagged task within 64 MiB, and then as the untagged bytes do |
| TaskCodec.TaggedTaskKeepsItsIdentity | src/taskdag_sgee/taskdag_sgee.cppm:82-90 | whatever its tag, a task decodes to itself and its untagged bytes are its own encoding |
| TaskCodec.OtherFilterMatchesExactly | src/taskdag_sgee/taskdag_sgee.cppm:1411-1412 | for all tags, bytes routed by one tag match the filter of another exactly if the match begins in the untagged bytes or the magic followed by the tag contains that filter |
| TaskCodec.CleanTagContainsNone | src/taskdag_sgee/taskdag_sgee.cppm:1411-1412 | a tag without the byte 0 contains no filter |
| TaskCodec.OtherFiltersMatchOnlyTheBody | src/taskdag_sgee/taskdag_sgee.cppm:1411-1412 | so bytes routed by such a tag match another tag's filter exactly if the match begins in the untagged bytes |
| TaskCodec.NestedTagMatchesTwice | src/taskdag_sgee/taskdag_sgee.cppm:1411-1412 | a tag made of another tag and that tag's length matches that tag's filter too, whatever the task |
| TaskCodec.PlacementTagsAreClean | src/taskdag_sgee/taskdag_sgee.cppm:1200-1219 | the placements' tags are clean and different |
| LatexTokens.TokenizeLatex | web/app.js:60-76 | the loops give the tokens of the recursive definition |
| LatexTokens.OnlyBlanksAreLost | web/app.js:60-76 | the tokens' spellings concatenate to the source without exactly its unescaped blanks |
| LatexTokens.TokensAreLexical | web/app.js:60-76 | every result is a list of spellable tokens, a nameless command only last |
| LatexTokens.SpacedReadsBack | web/app.js:60-76 | and every such list is a result: its space-joined spelling tokenizes back to it |
| LatexTokens.RetokenisingIsStable | web/app.js:60-76 | re-tokenizing the space-joined spellings of any source gives the same tokens |
| LatexParser.Atom | web/app.js:94-122 | an atom terminates, never moves back or past the end, consumes a token unless it stands at a script sign or the end, and is one node unless it is a fence command with nothing to show |
| LatexParser.Sequence | web/app.js:77-93 | a sequence terminates and stops only at the end or, in a group, at its closing brace |
| LatexParser.Scripts | web/app.js:81-86 | a run of scripts is consumed whole |
| LatexParser.ParsesAllOrRefuses | web/app.js:77-126 | the top-level parse consumes every token or refuses a command that is there and in no table |
| LatexParser.SequenceIsWellBuilt | web/app.js:77-122 | every element built has a proper name and, if every fence command has something to show, the child count of section 3.1.3.2 of MathML 3.0 |
| LatexArity.SequenceFitsExactly | web/app.js:77-122 | the same for every sequence of tokens, overwritten scripts not counting |
| LatexArity.ShowingFencesFit | web/app.js:77-122 | it is enough that every fence command has something to show |
| LatexArity.DanglingFenceCanFit | web/app.js:111-115 | but not needed: a fence command with nothing to show does no harm where no node is needed |
| LatexParser.FractionFitsExactly | web/app.js:109 | a fraction has two children exactly when neither operand place holds a fence command with nothing to show |
| LatexParser.ScriptsFitExactly | web/app.js:87-89 | a scripted item has its two or three children exactly when its base is no such command |
| LatexToMathML.ParseSeq | web/app.js:77-93 | the string-building loop writes the rendering of the tree, or throws as the tree parser refuses |
| LatexToMathML.ParseItem | web/app.js:79-90 | one turn of that loop, with an empty script counting as absent |
| LatexToMathML.ParseAtom | web/app.js:94-122 | the same for an atom |
| LatexToMathML.LatexToMathML | web/app.js:123-126 | the converter writes the document of the tree or throws |
| LatexMeaning.WrittenConverts | web/app.js:77-126 | every mathematical expression (numbers, letters, signs, named symbols, groups, fractions, roots, fences, any scripts in any order), written in LaTeX, converts to the document of its MathML tree, in which numerator and base come first and the last script of each kind counts |
| LatexMeaning.ExpressionConverts | web/app.js:77-126 | so does every source with those tokens, however blanks are set |
| LatexMeaning.NamedIsSymbol | web/app.js:117-121 | a known name is the identifier or operator of the first table that holds it |
| LatexToMathML.OutputIsWellFormed | web/app.js:77-126 | whenever it does not throw, an independent reader finds the output properly nested and recovers the tree, whose arities are right if every fence command has something to show |
| LatexToMathML.ArityHoldsExactly | web/app.js:77-126 | every element of the output has its number of children exactly if no fence command with nothing to show stands at an operand of a fraction or at the base of an item whose scripts survive |
| LatexToMathML.RefusesOnlyTheUnknown | web/app.js:120 | it throws only on a command of the source that no table holds |
| LatexToMathML.DanglingFenceBreaksAFraction | web/app.js:111-115 | a source whose fraction is written with one child |
| Markup.EscapedTextReadsBack | web/app.js:13-16 | a reader of markup finds in escaped text exactly the text |
| Markup.EscapingIsInjective | web/app.js:13-16 | different texts are escaped differently |
| Csp.DifferenceFits | src/csp/csp.cppm:664-681 | the guard, itself free of overflow, holds exactly when every difference between the domains and its negation fits 64 bits |
| Csp.ComputeTermBound | src/csp/csp.cppm:634-655 | the division guard refuses exactly the terms whose worst magnitude does not fit |
| Csp.CheckLinear | src/csp/csp.cppm:749-773 | the saturating accumulation decides as the bound's definition does |
| Csp.BoundIsExact | src/csp/csp.cppm:624-629 | that bound is the true sum of worst terms, cut at the largest 64-bit integer |
| Csp.Validate | src/csp/csp.cppm:701-793 | the loops report the first fault of the definition, or none |
| CspMeaning.HoldsAsDocumented | src/csp/csp.cppm:134-152 | evaluation decides each of the eight kinds as it is documented: x + k <= y, the distance of x and y is not k, pairwise different, the weighted sum is or is at most the last parameter, some row of the table |
| CspMeaning.FaultsExactly | src/csp/csp.cppm:712-790 | a constraint is refused for its shape (two variables or more, in range, all different, parameters as the kind takes them), else for its worst case over the domains, and is accepted otherwise |
| CspMeaning.ValidExactly | src/csp/csp.cppm:165-187 | a problem is accepted exactly if it has variables, all have values, and every constraint is in shape and in bounds |
| Csp.ValidatedIsSafe | src/csp/csp.cppm:178-187 | a constraint of a validated problem is evaluated on any values of its domains without any intermediate result leaving 64 bits |
| CspPartition.CountPrefixes | src/csp/csp.cppm:887-903 | the guarded product is the number of prefixes, overflow reported exactly when it exceeds 64 bits |
| CspPartition.SplitsExactly | src/csp/csp.cppm:887-926 | a split is refused exactly if the problem is not valid, has fewer variables than are to be fixed, or has more prefixes than 64 unsigned bits count; otherwise exactly the indices below the count have a prefix |
| CspPartition.AssignPrefix | src/csp/csp.cppm:905-926 | the backward loop decodes the index in mixed radix |
| CspPartition.RestrictPrefix | src/csp/csp.cppm:928-945 | the loop narrows exactly the fixed domains, or reports a value that is not in its domain |
| CspPartition.NoPrefixIsMissed | src/csp/csp.cppm:201-205 | every choice of values of the fixed variables comes up at some index below the count |
| CspPartition.IndexChoosesUniquely | src/csp/csp.cppm:915-924 | every index below the count decodes to the values at exactly one choice of places |
| CspPartition.NeverTwiceExactly | src/csp/csp.cppm:201-205 | no prefix comes up twice exactly when no fixed domain repeats a value |
| CspPartition.ValidCanRepeat | src/csp/csp.cppm:701-711 | validation accepts a domain that repeats a value, and then a prefix comes up twice |
| CspPartition.IndexOrderIsLexicographic | src/csp/csp.cppm:915-917 | with ascending domains ascending indices are ascending prefixes |
| CspPartition.EveryAssignmentIsCovered | src/csp/csp.cppm:201-205 | every assignment lies in the sub-problem of an index, of one only when no fixed domain repeats a value |
| CspPartition.RestrictionKeepsSolutions | src/csp/csp.cppm:198-200 | a sub-problem's solutions are the problem's solutions with that prefix |
| CspPartition.RestrictionIsValid | src/csp/csp.cppm:928-945 | every sub-problem passes validation |
| CspPartition.SatisfiableByParts | src/csp/csp.cppm:201-205 | the problem is satisfiable exactly when one of its numbered sub-problems is |
| CspPartition.FirstPartIsFirst | src/csp/csp.cppm:915-917 | with ascending fixed domains the prefix of the satisfiable part of lowest index comes first among the prefixes of all solutions |
| CspPartition.LowestIndexWins | src/csp/csp.cppm:915-917 | and the first solution of that part is the lexicographically first solution of the whole problem |
| Queens.BuildQueens | tools/csp_compile.cpp:71-103 | the nested loops build the encoding |
| Queens.SolutionsArePlacements | tools/csp_compile.cpp:71-103 | for every number of queens and either encoding the solutions are exactly the placements with distinct columns and no two queens on a diagonal |
| Queens.EncodingsAgree | tools/csp_compile.cpp:19-21 | so the two encodings have the same solutions, for every number of queens |
| Queens.EncodingValidExactly | tools/csp_compile.cpp:82-90 | an encoding passes validation exactly if it is pairwise or has two rows |
| Dimacs.ReadDimacs | tools/sat_compile.cpp:34-80 | the loops over lines and literals read what the definition by stream extraction reads |
| DimacsLayout.AcceptedExactly | tools/sat_compile.cpp:34-80 | a text is accepted exactly if it consists of lines to skip, headers and, after a header, lines of whole numerals, each ending in blanks or in one cut numeral |
| DimacsLayout.LayoutIsRead | tools/sat_compile.cpp:34-80 | such a text is read as its whole numerals under its last header's count |
| DimacsRoundTrip.LayoutKeepsTheStream | tools/sat_compile.cpp:59-79 | whatever is read has a variable and no zero in a clause, and its clauses with their zeros are all whole numerals of the text in order, up to one missing final zero |
| DimacsRoundTrip.RoundTrip | tools/sat_compile.cpp:34-80 | a formula laid out in any way, over any lines, with lines to skip and headers anywhere and numerals in any spelling, reads back as itself, the last zero optional |
| DimacsRoundTrip.PrintReadsBack | tools/sat_compile.cpp:34-80 | printing any formula with a variable and reading it gives it back |
| DimacsLayout.FinalNewlineIsOptional | tools/sat_compile.cpp:39 | a missing final newline changes nothing |
| DimacsRoundTrip.DroppedExactly | tools/sat_compile.cpp:60-71 | a line of literals leaves a token unread exactly if it ends in a cut numeral |
| DimacsRoundTrip.OverflowIsDropped | tools/sat_compile.cpp:69-71 | every such token is dropped |
| DimacsRoundTrip.OverflowGivesTheEmptyFormula | tools/sat_compile.cpp:32-33 | a file whose one clause is such a number reads as the formula without clauses |
| CounterRng.MixUndone | python/triton/mc_option.py:36-43 | an explicit function undoes the mix |
| CounterRng.MixRedone | python/triton/mc_option.py:36-43 | and the mix undoes it: a bijection on 64-bit words |
| CounterRng.DrawsNeverCollide | python/triton/mc_option.py:46-49 | under one key distinct path indices have distinct draws |
| CounterRng.EveryWordIsDrawn | python/triton/mc_option.py:46-49 | and every word is drawn at some counter |
| CounterRng.FirstWords | python/triton/mc_option.py:36-43 | at 0, at 1 and at its own increment the mix gives the published words of splitmix64 |
| PathWords.WordsDiffer | python/triton/mc_option.py:89-94 | different path indices below two to the sixty-fourth are different 64-bit counters |
| MonteCarlo.DrawUndone | python/triton/mc_option.py:93-94 | a path's draw is the two-round mix under the key drawn from the seed at zero: an explicit inverse gives the seed back |
| MonteCarlo.PathsDrawApart | python/triton/mc_option.py:93-94 | so under one seed no two paths share a draw |
| MonteCarlo.SeedsDrawApart | python/triton/mc_option.py:93-94 | and two seeds share a draw at no path |
| MonteCarlo.RunLanes | python/triton/mc_option.py:88-106 | one program's lanes, drawn under the key it makes itself, give the two sums of its block's paths |
| MonteCarlo.PriceSums | python/triton/mc_option.py:82-124 | for every block size the two totals are the plain sums over all paths, each path paying by the draw of its own index |
| MonteCarlo.LanesAreABlock | python/triton/mc_option.py:88-105 | a program's masked lanes add exactly the paths of its block |
| CsrSpmv.Multiply | python/triton/csr_spmv.py:150-180 | for every tile shape and program order the result is the product, shortcuts included |
| CsrSpmv.ProductIsDense | python/triton/csr_spmv.py:84-91 | an element of that product is the dense row, zeros included and repeated columns added up, times the vector |
| CsrSpmv.Accumulate | python/triton/csr_spmv.py:74-91 | the chunked masked loop gives every row of a tile its whole sum, no load leaving its row |
| CsrSpmv.ChunkAddsItsEntries | python/triton/csr_spmv.py:84-91 | a chunk adds exactly the row's entries that fall into it |
| CsrSpmv.EachRowHasOneOwner | python/triton/csr_spmv.py:74-76 | every row lies in the tile of exactly one program of the grid |
| CsrSpmv.RunProgram | python/triton/csr_spmv.py:74-93 | a program stores its own rows' sums and nothing else |
| SignTest.SignTestPValue | tools/taskdag_sched_bench.cpp:248-264 | the loop computes the share of outcomes at least as one-sided as the observed one |
| SignTest.ClampedIsPValue | tools/taskdag_sched_bench.cpp:262-263 | that share is the clamped double tail, and the clamp matters exactly for a tie |
| SignTest.PValueIsProbability | tools/taskdag_sched_bench.cpp:246-264 | it lies above zero and at most one |
| SignTest.PValueIsSymmetric | tools/taskdag_sched_bench.cpp:246-264 | it is symmetric in wins and losses |
| SignTest.PValueFallsWithImbalance | tools/taskdag_sched_bench.cpp:246-264 | at a fixed number of trials it does not grow with the imbalance |
| SignTest.NextCoefficient | tools/taskdag_sched_bench.cpp:258-261 | the loop's factor takes one binomial coefficient to the next |
| AxisTicks.NiceTicks | web/renderer.js:102-111 | for any bounds the loop gives consecutive multiples of one step, from the first to the last |
| AxisTicks.InvertedStepIsOne | web/renderer.js:94-106 | with the minimum above the maximum the step is one |
| AxisTicks.RoundedIsNice | web/renderer.js:94-101 | rounding, either way, gives one, two or five times a power of ten |
| AxisTicks.RoundedUpIsLeast | web/renderer.js:94-101 | rounding up gives the least such number that is not below |
| AxisTicks.RoundedNearExactly | web/renderer.js:94-101 | rounding to the nearest changes over at exactly 1.5, 3 and 7 times a power of ten |
| AxisTicks.NiceIsKept | web/renderer.js:94-101 | a nice number is rounded to itself, either way |
| AxisTicks.RoundingIsMonotone | web/renderer.js:94-101 | rounding, either way, keeps the order |
| AxisTicks.StepExactly | web/renderer.js:102-106 | the step is determined: the width rounded up to the least nice number, divided by the intervals asked for, one if there are none, and rounded to the nearest |
| AxisTicks.TicksSpanTheData | web/renderer.js:102-111 | the step is nice, the ticks enclose the data, each end by less than a step, and their number lies strictly between 6 m / 25 + 1 and 1.5 m + 3 for m intervals asked for |
| AxisTicks.RoundedUp | web/renderer.js:94-101 | rounding up never undershoots and overshoots by less than a factor of 2.5 |
| AxisTicks.RoundedNear | web/renderer.js:94-101 | rounding to the nearest stays above two thirds of and within five thirds of the range |
| AxisTicks.TinyTickIsZero | web/renderer.js:109 | in exact arithmetic only the zero tick is snapped to zero |

## Left out

- The gRPC transport, TLS, connecting, option validation, the SGEE server, wall clocks: represented only by the script of answers and the monotone clock.
- FakeBrokerPort is modelled as functions on its queue, not as a class with a mutex: it stands for the remote broker, which the port sees only through requests. Its fault injection, logs and testing hooks are not modelled.
- Worker ids, placements and the heartbeat count: they do not influence which task is leased or whether a token is accepted.
- 64-bit wrap-around of task ids, tokens and rotation counts: they are unbounded.
- A null ring is modelled as a ring without nodes; `sweep_expired`, `now_ms` and `is_open` of the remote port are trivial.
- GrpcBrokerPort and GrpcResultChannel hold a mutex for a whole call, so their methods run alone on their own state; what other threads do to the shared ring is part of the script, and RingInterleaving treats the steps themselves.
- TaskCodec: result envelopes and the affinity tables that choose a tag are not modelled; a filter can also match argument bytes, as the source says.
- LatexMeaning.WrittenConverts: expressions have all their operands; what is written for a missing operand, a stray closing brace, an unclosed group or a fence with nothing to show is stated only in number and shape (LatexParser, LatexArity).
- LatexTokens.TokenizeLatex: characters outside the basic multilingual plane, which the source sees as two code units, are one character here.
- LatexSymbols: the text shown for `\left\constructor` and the like, which reach built-in functions through the operator table, depends on the engine; the form of V8 is modelled.
- Markdown prose, plotting, the viewer's document and its wiring: I/O and UI.
- Dimacs.ReadDimacs: allocation failure for an absurd clause count in the header.
- Csp: the solvers, arc consistency and the conversion to closures.
- MonteCarlo.PriceSums: what a draw pays is a parameter; the inverse normal, the conversion of draws to reals and the standard error are floating-point formulas.
- CsrSpmv.Multiply: the structure must be valid and monotone; sums are exact, not floating-point.
- AxisTicks.NiceTicks: exact reals stand for floating-point numbers; infinite or undefined bounds are not modelled.
- SignTest.SignTestPValue: exact reals stand for floating-point numbers.
