# A verified model of yellowbox's mock services

Yellowbox gives tests fake counterparts of real services. Most of it drives containers, but some of
its services are algorithms and state machines of their own. This project models those in Dafny and
proves what they promise:

- **The log stream decoder** (`Framing.dfy`, `Logstash.dfy`): connections deliver bytes in arbitrary
  pieces, one thread cuts them into frames and appends the decoded frames to one list. The records do
  not depend on how the bytes are cut, exactly when the delimiter has one byte or is degenerate, and
  every run is an order-preserving interleaving of its connections.
- **Request and transcript matchers** (`RequestCapture.dfy`, `HTTPCapture.dfy`, `WSCapture.dfy`): the
  greedy matcher of expected requests finds an ordered embedding if there is one; the windowed
  matcher of transcripts decides the language of the pattern the user wrote; submap and submultimap
  checks are inclusion, and inclusion is the order of expectations.
- **The mock web server** (`PendingErrors.dfy`, `Endpoints.dfy`, `EndpointPatches.dfy`,
  `MockServer.dfy`, `ClassEndpoints.dfy`): the slot that carries handlers' exceptions to the test
  under all interleavings, nested patches and captures, routes and owners over several servers, and
  the collection of endpoint templates along class inheritance.
- **The secret eraser** (`Vault.dfy`), **the websocket route table** (`WebsocketRoutes.dfy`) and **the
  retry loops** (`Retry.dfy`).

`PendingErrors.dfy` cuts handlers and test into their interleaving points; in `Endpoints.dfy` and
`MockServer.dfy` an operation is one step.

Code that changes objects step by step is modelled by classes and loops, each proved against a
function or predicate on values; the lemmas are about those. Decoding, JSON, regular expressions,
lower-casing and per-message data are parameters.

Some results differ from what one might expect of the code; each has its exact condition:

- A delimiter of two bytes up to the size of the receive buffer is missed when it is cut across two
  reads; longer ones are never found, and an empty one closes every connection at its first byte
  (`Logstash.ChunkIndependence`). While no read cuts one, a delimiter of any length is decoded as it
  should be (`Logstash.StreamDecoding`).
- No exception is ever delivered twice, but some are not delivered at all: as many are lost as there
  were failures stored while the slot was full, so nothing is lost if and only if there were none
  (`PendingErrors.NothingLostExactlyWhen`). `raise_from_pending` reads and clears in two steps, and an
  exception stored in between is never delivered (`PendingErrors.StoredInWindowIsLost`;
  `PendingErrors.ClearRaces` is such a run).
- `retry` and `aretry` differ for a negative interval, which `time.sleep` rejects and `asyncio.sleep`
  accepts (`Retry.SameRun`, and `Retry.NegativeSleepDiffers` for a case).
- A capture exited while another is innermost stays on the stack for good and keeps recording; once
  all are exited the stack is restored if and only if none was exited while one made later was still
  open (`Endpoints.AllClosedRestoresStack`, and `Endpoints.OutOfOrderLeavesCapture` for a case).
- Patches exited last in, first out restore the original side effect (`Endpoints.NestedPatchesRestore`);
  in another order it is back if and only if the chain of exits and patches that leads to the side
  effect in force ends at the start (`Endpoints.OriginalReturnsExactlyWhen`, and
  `Endpoints.OutOfOrderLeavesPatch` for a case in which it does not).
- An exception raised by a body validator escapes from `assert_has_requests`, exactly when the scan
  meets it before it is done, even if a later request matches (`HTTPCapture.AssertHasRequests`,
  `HTTPCapture.RaisingHidesMatch`).
- Removing an endpoint from its server by the method for the other protocol always fails, and no other
  search for a route does (`MockServer.Operate`).
- A patched endpoint whose context is exited with an error pending keeps its route
  (`EndpointPatches.AllExitedRestores`, and `EndpointPatches.ErrorLeavesRoute` for a case).

## Model

| member | source | states |
|---|---|---|
| Framing.SplitSound | yellowbox/extras/logstash.py:159 | splitting on any non-empty delimiter loses no byte, leaves no delimiter inside a chunk, and cuts at the leftmost delimiters |
| Framing.SplitUnique | yellowbox/extras/logstash.py:159 | the split is the only way to cut a byte string at its leftmost delimiters |
| Framing.OneByteSplitUnique | yellowbox/extras/logstash.py:159 | for a one-byte delimiter, it is the only way to cut it into delimiter-free chunks |
| Framing.SplitConcat | yellowbox/extras/logstash.py:159-171 | a stream cut anywhere but inside a delimiter, hence anywhere for a one-byte delimiter, splits as its two parts glued together |
| Logstash.GoodRecords | yellowbox/extras/logstash.py:175-179 | the result decodes frame by frame, and stops exactly at the first frame that does not decode |
| Logstash.GoodRecordsUnique | yellowbox/extras/logstash.py:175-185 | there is only one list of records that decodes the longest valid prefix of some frames |
| Logstash.FakeLogstashService.ProcessSocketData | yellowbox/extras/logstash.py:150-187 | the state after one read on one socket: records appended, partial chunks kept, the socket unregistered here for a frame that is not JSON and left to the caller for any other exception |
| Logstash.FakeLogstashService.BackgroundThread | yellowbox/extras/logstash.py:189-213 | the state after any events up to the closing request, whatever follows it |
| Logstash.StreamDecoding | yellowbox/extras/logstash.py:145-187 | for every cutting of a byte stream that cuts no delimiter, hence for every cutting with a one-byte delimiter: records are the decodings of the longest valid prefix of its frames, the connection is open exactly until a bad frame or the end, and while open the joined partial chunks are the delimiter-free tail |
| Logstash.ChunkIndependence | yellowbox/extras/logstash.py:152-171 | what can be observed of a connection is independent of the cutting if and only if the delimiter has at most one byte or more than the receive buffer holds |
| Logstash.CutDelimiterIsMissed | yellowbox/extras/logstash.py:159-166 | for every other delimiter, two cuttings of the delimiter itself that are told apart |
| Logstash.Separate | yellowbox/extras/logstash.py:189-213 | in every run each socket is registered, with the partial chunks, exactly as if it were alone |
| Logstash.Interleaving | yellowbox/extras/logstash.py:189-213 | the shared records are an order-preserving interleaving of what each connection produces alone, for any delimiter |
| Logstash.ServiceDecodesEveryStream | yellowbox/extras/logstash.py:145-213 | for every run over any connections and any cutting that cuts no delimiter, the records belonging to a connection are those of the longest valid prefix of the frames it sent |
| RequestCapture.IsSubmapOf | yellowbox/extras/webserver/request_capture.py:16-35 | true exactly when every pair of the one map is in the other |
| RequestCapture.HasAll | yellowbox/extras/webserver/request_capture.py:57-60 | subtracting counters finds no negative count exactly when the wanted multiset is included |
| RequestCapture.IsSubmultimapOf | yellowbox/extras/webserver/request_capture.py:38-65 | true exactly when each key is present with at least the wanted values, counted |
| RequestCapture.WeakerMap | yellowbox/extras/webserver/request_capture.py:16-35 | one map is a submap of another exactly when, as an expectation, it accepts all that the other accepts |
| RequestCapture.WeakerMultimap | yellowbox/extras/webserver/request_capture.py:38-65 | the same for multimaps, hence reflexivity and transitivity |
| RequestCapture.ToExpected | yellowbox/extras/webserver/request_capture.py:68-88 | giving an exact map and a submap together is refused, and nothing else is; from the result both arguments can be read back |
| RequestCapture.ScopeMeansArguments | yellowbox/extras/webserver/request_capture.py:166-198 | a scope is refused exactly when a part is given in both forms; otherwise it accepts exactly the requests that meet every argument given: the path, the path and query parameters, and the headers, the last one given of each lower-cased name |
| RequestCapture.MatchesExpectedMap | yellowbox/extras/webserver/request_capture.py:91-113 | accepts under no expectation, an equal map or an included one, as the expectation says |
| RequestCapture.MatchesExpectedMultimap | yellowbox/extras/webserver/request_capture.py:116-138 | the same for multimaps, where only lists can equal recorded lists |
| RequestCapture.ScopeMismatchReasons | yellowbox/extras/webserver/request_capture.py:184-198 | names exactly the parts of a scope that fail, so none exactly when the scope is accepted |
| RequestCapture.WeakerScopeAccepts | yellowbox/extras/webserver/request_capture.py:91-138 | a weaker scope accepts whatever a stronger one accepts |
| RequestCapture.ExactImpliesSubmap | yellowbox/extras/webserver/request_capture.py:166-198 | a scope accepted under exact maps is accepted when the same maps are given as submaps, empty header maps included |
| RequestCapture.GroupsUnique | yellowbox/extras/webserver/http_request_capture.py:262-275 | the grouping of pairs is unique, so the HTTP and websocket loops agree |
| RequestCapture.GroupsTotal | yellowbox/extras/webserver/http_request_capture.py:262-275 | grouping conserves the number of pairs |
| RequestCapture.ValuesInOrder | yellowbox/extras/webserver/http_request_capture.py:262-275 | the values of a key are those of all its pairs, in the order of the pairs |
| RequestCapture.ValuesOfCount | yellowbox/extras/webserver/request_capture.py:57-60 | a value occurs under a key as often as the pair occurs in the list |
| RequestCapture.SubmultimapOfGrouped | yellowbox/extras/webserver/request_capture.py:51-65 | against grouped pairs the check holds exactly when each expected key occurs and each pair occurs at least as often as wanted |
| HTTPCapture.Matches | yellowbox/extras/webserver/http_request_capture.py:202-223 | a match exactly when scope, method (if not empty) and body are all accepted; an exception exactly when the body validator raises, whatever the other parts |
| HTTPCapture.GroupRequest | yellowbox/extras/webserver/http_request_capture.py:262-275 | headers under lower-cased names and query pairs are grouped: exactly the keys that occur, each with its values in order |
| HTTPCapture.GreedyTake | yellowbox/extras/webserver/http_request_capture.py:478-484 | taking the first match keeps the matched prefix the longest one that embeds |
| HTTPCapture.AssertHasRequests | yellowbox/extras/webserver/http_request_capture.py:461-485 | an exception escapes exactly when the validator of the first request that the longest embedding prefix leaves out raises on the next recorded one; otherwise it succeeds exactly when a strictly increasing placement of all expected requests exists, and past the length check names the first that no placement reaches |
| HTTPCapture.RaisingHidesMatch | yellowbox/extras/webserver/http_request_capture.py:62-66 | whenever a validator raises on a recorded request, a later one that matches is not found |
| WSCapture.Strip | yellowbox/extras/webserver/ws_request_capture.py:265-275 | an ellipsis is stripped from either end and remembered, with nothing else lost |
| WSCapture.Construct | yellowbox/extras/webserver/ws_request_capture.py:265-282 | refused exactly when an ellipsis is neither first nor last; otherwise the parts kept spell the pattern given |
| WSCapture.MessageMeans | yellowbox/extras/webserver/ws_request_capture.py:195-218 | an exact expectation accepts one message only; any data or a pattern accept messages of the sender, with data the pattern matches |
| WSCapture.ExactPatternIsOneTranscript | yellowbox/extras/webserver/ws_request_capture.py:303-327 | exact messages without ellipses describe one transcript only |
| WSCapture.WindowLanguage | yellowbox/extras/webserver/ws_request_capture.py:303-317 | a transcript is in the language of a pattern exactly when the length checks pass and the messages match at one of the candidate starts |
| WSCapture.FindWindow | yellowbox/extras/webserver/ws_request_capture.py:319-327 | the nested loops find a window exactly when there is one |
| WSCapture.Matches | yellowbox/extras/webserver/ws_request_capture.py:284-330 | an unfinished transcript is an error; a finished one matches exactly when scope, closing and acceptance are as expected and its messages are in the language of the pattern |
| WSCapture.TranscriptIsProjection | yellowbox/extras/webserver/ws_request_capture.py:37-64 | after any events: of every data event, and no other, the text if it has one, even an empty one, and otherwise the bytes, in order and with their senders; accepted exactly if an accept was sent; the last closing with its side and its code, or 1000 |
| WSCapture.WebSocketRecorder.constructor | yellowbox/extras/webserver/ws_request_capture.py:24-35 | every open capture gets one and the same new transcript appended |
| WSCapture.WebSocketRecorder.Receive | yellowbox/extras/webserver/ws_request_capture.py:37-49 | what a received event adds to the transcript, by its own fields, with default code 1000 (section 7.4.1 of RFC 6455), and that nothing else changes |
| WSCapture.WebSocketRecorder.Send | yellowbox/extras/webserver/ws_request_capture.py:51-64 | what a sent event adds to the transcript, by its own fields, recorded before it is passed on |
| WSCapture.RecordConnection | yellowbox/extras/webserver/ws_request_capture.py:79-81 | at the end of a conversation the captures open at its start hold the transcript of all of it |
| WSCapture.GroupConnection | yellowbox/extras/webserver/ws_request_capture.py:160-176 | the same grouping of headers and query pairs as for HTTP requests |
| PendingErrors.SlotFromHistory | yellowbox/extras/webserver/endpoints.py:150-157 | over all interleavings the slot holds the latest failure that counts (of an endpoint of the server, and no tolerated abrupt disconnect), with a new number, until the test clears it |
| PendingErrors.StoresExactlyWhen | yellowbox/extras/webserver/endpoints.py:284-290 | the end of a side effect puts an exception in the slot exactly if it is such a failure, told from the history alone |
| PendingErrors.RunningFromHistory | yellowbox/extras/webserver/endpoints.py:282-283 | a handler is in flight exactly between its start and its end, with the task it looked for |
| PendingErrors.LookGoesOnExactlyWhen | yellowbox/extras/webserver/endpoints.py:137-143 | a request goes on exactly if its endpoint was last added, not removed, and no failure is waiting |
| PendingErrors.TestSeesHistory | yellowbox/extras/webserver/webserver.py:339-344 | what the test finds and reads is what is waiting at that moment, and it raises what it has read |
| PendingErrors.NoStartWhilePending | yellowbox/extras/webserver/endpoints.py:135-149 | over all interleavings, no side effect starts while an exception is pending |
| PendingErrors.AlwaysAccounted | yellowbox/extras/webserver/webserver.py:339-344 | every stored exception is delivered, lost or on its way to the test, and only one of these |
| PendingErrors.DeliveredOnce | yellowbox/extras/webserver/webserver.py:339-344 | no stored exception is delivered twice, none is delivered that was not stored |
| PendingErrors.OverwriteBound | yellowbox/extras/webserver/endpoints.py:150-157 | between two clears an exception is overwritten at most as often as there were other handlers in flight when the slot was first set |
| PendingErrors.LoneFailureKept | yellowbox/extras/webserver/endpoints.py:150-157 | the failure of the only handler in flight is not overwritten before a clear |
| PendingErrors.LostAreOverwrites | yellowbox/extras/webserver/endpoints.py:150-157 | over all interleavings, as many exceptions are lost as failures were stored into the full slot, but for one the test may still hold |
| PendingErrors.NothingLostExactlyWhen | yellowbox/extras/webserver/webserver.py:339-344 | when the test holds none, nothing has been lost if and only if no failure was stored while another was pending |
| PendingErrors.StoredInWindowIsLost | yellowbox/extras/webserver/webserver.py:342-344 | an exception stored between the test's read and its clear is never delivered, in any continuation |
| PendingErrors.ReadIsDelivered | yellowbox/extras/webserver/webserver.py:342-344 | an exception the test has read is held until it is delivered, whatever is stored meanwhile |
| PendingErrors.ClearRaces | yellowbox/extras/webserver/webserver.py:341-344 | such a loss does happen: a possible run of two failing handlers |
| PendingErrors.PendingSlot.LookForPending | yellowbox/extras/webserver/endpoints.py:137-143 | a request to an endpoint without owner, or with an exception pending, goes no further |
| PendingErrors.PendingSlot.EndSideEffect | yellowbox/extras/webserver/endpoints.py:282-291 | a failure is stored exactly unless it is a tolerated abrupt disconnect or the endpoint was removed meanwhile |
| PendingErrors.PendingSlot.ClearAndRaise | yellowbox/extras/webserver/webserver.py:342-344 | the slot is emptied and the exception read before is delivered |
| PendingErrors.PendingSlot.Interleave | yellowbox/extras/webserver/endpoints.py:274-294 | the steps of both kinds of handler and of the test, in any possible order, reach the state the event history describes |
| Endpoints.OpenOnStack | yellowbox/extras/webserver/endpoints.py:115-133 | in every run, captures exited in any order, each capture with an open context is on the stack |
| Endpoints.ExitFindsCapture | yellowbox/extras/webserver/endpoints.py:130 | the read of the innermost capture never meets an empty stack, and fails exactly if another capture is innermost |
| Endpoints.CaptureGrowsBy | yellowbox/extras/webserver/endpoints.py:161-164 | the list of a capture still on the stack has grown by exactly the requests served, that of one off the stack by nothing |
| Endpoints.CaptureHoldsUntil | yellowbox/extras/webserver/endpoints.py:127-133 | the list of a capture in force is, at the end of any run, what it held and the requests served up to the exit that removed it, which is its own, or all of them if none did |
| Endpoints.CaptureMadeHolds | yellowbox/extras/webserver/endpoints.py:122-133 | the list of a capture made in a run is exactly the requests served from its making up to its own exit, or up to the end |
| Endpoints.RunLeftover | yellowbox/extras/webserver/endpoints.py:129-132 | in every run the stack holds its initial captures and, of those made since, exactly the ones not exited yet and the ones whose exit was refused |
| Endpoints.RefusedExactlyWhen | yellowbox/extras/webserver/endpoints.py:129-132 | in every run some exit of a capture is refused if and only if some capture is exited while one made later has not been exited |
| Endpoints.AllClosedRestoresStack | yellowbox/extras/webserver/endpoints.py:129-132 | once all captures made are exited, the stack is as before if and only if none was exited while one made later was open; the captures left are those of the refused exits |
| Endpoints.OutOfOrderLeavesCapture | yellowbox/extras/webserver/endpoints.py:130-131 | it does happen: two captures exited in the order of their making |
| Endpoints.SideEffectInForce | yellowbox/extras/webserver/endpoints.py:101-113 | with patches exited in any order and any number of times, the side effect in force is the one bound by the patch that the order of the calls determines, or the original one |
| Endpoints.OriginalReturnsExactlyWhen | yellowbox/extras/webserver/endpoints.py:29-41 | the original side effect is back if and only if that order leads to no patch, or to one that binds the same |
| Endpoints.NestedPatchesRestore | yellowbox/extras/webserver/endpoints.py:29-41 | once all patches are exited, each while it was the last one open, the original side effect is back |
| Endpoints.OutOfOrderLeavesPatch | yellowbox/extras/webserver/endpoints.py:39-40 | in another order it may not be: two patches exited in the order of their making leave the side effect of the first |
| Endpoints.RaisedInRun | yellowbox/extras/webserver/endpoints.py:101-133 | what every step of every run raises: an operation that asks raises the failure that waits, by the history, and otherwise a capture is refused exactly if bodies are not read and a patch fails exactly if its side effect cannot be made |
| Endpoints.FailureRaisedOnce | yellowbox/extras/webserver/webserver.py:339-344 | the failure of a handler is raised by the first operation that asks for it and by no other, unless another failure comes in between; no other handler errors are raised, but one pending at the start |
| Endpoints.CleanExactlyWhenQuiet | yellowbox/extras/webserver/endpoints.py:101-133 | a program that catches nothing ends without an error, raised or still pending, exactly if nothing was pending and nothing in it goes wrong, a failing handler included |
| Endpoints.BlocksEnd | yellowbox/extras/webserver/endpoints.py:39-41 | a block ends with the failure pending at its exit in place of what its body raised, and otherwise as its body did |
| Endpoints.EntryRaises | yellowbox/extras/webserver/endpoints.py:111-122 | a block entered with a failure pending raises it, clears it and runs nothing |
| Endpoints.BlocksFollowServer | yellowbox/extras/webserver/endpoints.py:39-41 | a block of an endpoint without server raises, one of an endpoint with a new server raises what is pending there |
| Endpoints.ProgramRestores | yellowbox/extras/webserver/endpoints.py:101-133 | every well-nested program of patches and captures leaves side effect and capture stack as found, whatever is raised on entry, inside or on exit, and caught or not in any enclosing block |
| Endpoints.CaptureHoldsItsRequests | yellowbox/extras/webserver/endpoints.py:310-321 | a capture's list is what was served in its block, and a contiguous slice of every enclosing capture's list |
| MockServer.MockEndpoint.Patch | yellowbox/extras/webserver/endpoints.py:101-113 | a pending error is raised, and cleared, before the side effect is replaced; the previous one is kept for the exit |
| MockServer.MockEndpoint.ExitPatch | yellowbox/extras/webserver/endpoints.py:39-41 | the side effect is restored even if a pending error is then raised |
| MockServer.MockEndpoint.CaptureCalls | yellowbox/extras/webserver/endpoints.py:122-126 | entry of a capture: a pending error is raised, then the capture refused if bodies are not read, else pushed |
| MockServer.MockEndpoint.ExitCapture | yellowbox/extras/webserver/endpoints.py:129-133 | exit of a capture: popped if innermost, and only then a pending error raised |
| MockServer.MockEndpoint.Record | yellowbox/extras/webserver/endpoints.py:161-164 | the request is appended once to each capture on the stack and to no other |
| MockServer.RunEvents | yellowbox/extras/webserver/endpoints.py:101-165 | any steps on an endpoint object, captures and patches left in any order, each patch restoring what it saved, reach the state the results on runs are about |
| MockServer.RunProgram | yellowbox/extras/webserver/endpoints.py:101-133 | a well-nested test program run on an endpoint object has the effect, the result and the log the results on programs are about |
| MockServer.WebServer.RaiseFromPending | yellowbox/extras/webserver/webserver.py:339-344 | raises what is pending, if anything, and clears it |
| MockServer.WebServer.AddEndpoint | yellowbox/extras/webserver/webserver.py:125-135 | the route is appended and the owner set, or an error is raised and routes and owner are unchanged; an endpoint of the other protocol is always an error |
| MockServer.WebServer.RemoveEndpoint | yellowbox/extras/webserver/webserver.py:143-158 | the first route of the endpoint for the protocol is removed and the owner cleared, or an error is raised and both are unchanged; which error, for endpoints of the other protocol too |
| MockServer.Operate | yellowbox/extras/webserver/webserver.py:215-250 | through any operations on any servers an endpoint's owner is a server exactly when it has one route there, and it has none elsewhere; every outcome is the one that owners and pending errors determine: the route search fails if and only if the owner is asked, with nothing pending, over the other protocol |
| MockServer.PatchEndpoints | yellowbox/extras/webserver/webserver.py:175-190 | for patch contexts entered and exited in any order, with errors pending at any point: the routes are the initial ones followed by those of the endpoints patched in, in entry order; endpoints that belonged to a server keep it |
| EndpointPatches.RunAgrees | yellowbox/extras/webserver/webserver.py:175-190 | an endpoint is patched in exactly while its last entry that did not raise is later than its last exit, or for good once an exit of it met an error |
| EndpointPatches.OpenInEntryOrder | yellowbox/extras/webserver/webserver.py:265-280 | with no error pending at an exit, the endpoints still patched in are those entered since their last exit, in entry order |
| EndpointPatches.AllExitedRestores | yellowbox/extras/webserver/webserver.py:186-190 | once all contexts are exited the routes are as before if and only if no exit met a pending error; those that did left their routes |
| EndpointPatches.ErrorLeavesRoute | yellowbox/extras/webserver/webserver.py:143 | it does happen: one context, and a handler that fails before its exit |
| ClassEndpoints.InitSubclass | yellowbox/extras/webserver/webserver.py:346-363 | a TypeError exactly when two bases, or a base and the class itself, give the same name; otherwise the merged table |
| ClassEndpoints.MergedIsInherited | yellowbox/extras/webserver/webserver.py:348-363 | a merged table has exactly the names that some inheritance path leads to, each by one path, with the template defined there |
| ClassEndpoints.ClashArrivesTwice | yellowbox/extras/webserver/webserver.py:352-360 | a rejected class has a name that arrives by two different paths |
| ClassEndpoints.DefineClasses | yellowbox/extras/webserver/webserver.py:346-363 | over a whole hierarchy: every accepted class has the templates inheritance gives it, and a class is rejected exactly when a name arrives twice |
| ClassEndpoints.DiamondArrivesTwice | yellowbox/extras/webserver/webserver.py:349-355 | a diamond over a class with templates is always rejected |
| Vault.NameCovers | yellowbox/extras/vault.py:153-160 | a listed name stands for everything below a directory, or for the one secret of that path |
| Vault.StepRemoves | yellowbox/extras/vault.py:154-160 | what a name stands for is untouched until its turn, and is what its turn removes, in any listing order |
| Vault.VaultService.ClearRecursive | yellowbox/extras/vault.py:152-160 | terminates; raises exactly if nothing is below its path at the start, so none of its own calls does; removes exactly the secrets strictly below |
| Vault.VaultService.ClearSecrets | yellowbox/extras/vault.py:139-162 | exactly the secrets strictly below the root are removed; a path without final slash or an empty root is an error and changes nothing |
| WebsocketRoutes.TargetIsGiven | yellowbox/extras/websocket.py:352-358 | what the path and regex arguments name: the one that is given and not empty, a regex compiled, and nothing if both or neither are |
| WebsocketRoutes.WebsocketService.Add | yellowbox/extras/websocket.py:327-374 | that very path, or the compiled regex, is placed or overwritten with the callback; or the error that the arguments and the table call for is raised and the table is unchanged |
| WebsocketRoutes.WebsocketService.Remove | yellowbox/extras/websocket.py:407-426 | that very path, or the compiled regex, is removed; a KeyError exactly if it is absent; on any error the table is unchanged |
| WebsocketRoutes.WebsocketService.GetGenerator | yellowbox/extras/websocket.py:275-293 | the exact path's callback if present, otherwise that of the last matching pattern in the table |
| WebsocketRoutes.AddedPathIsFound | yellowbox/extras/websocket.py:284-286 | a lookup of a path that was placed gives its callback and no other |
| WebsocketRoutes.RunReflects | yellowbox/extras/websocket.py:366-374 | after any history the table holds exactly the current callbacks, patterns in the order in which their present stays began |
| WebsocketRoutes.LookupKeepsPromise | yellowbox/extras/websocket.py:284-293 | a lookup result is right exactly if it is the exact path's current callback, or else that of the matching pattern whose stay began most recently |
| WebsocketRoutes.PatchLeavesNoTrace | yellowbox/extras/websocket.py:376-392 | a patch context whose body leaves its target alone ends without error and leaves the table as if only the body had run |
| Retry.Retry | yellowbox/retry.py:34-71 | the run ends at the first call that no other follows, with sleeps between calls; with a negative interval it ends at the first sleep |
| Retry.ARetry | yellowbox/retry.py:73-110 | the same without the error of a negative sleep |
| Retry.RunResult | yellowbox/retry.py:51-71 | the first success, the first unlisted exception or the last listed one; calls alternate with sleeps of the interval, at most `attempts` calls; after a listed exception the run goes on exactly while attempts are left and the clock is not past start plus timeout |
| Retry.RefusedExactlyWhen | yellowbox/retry.py:54-55 | a run is refused exactly with less than one attempt |
| Retry.BadSleepExactlyWhen | yellowbox/retry.py:70 | `retry` fails in its sleep exactly if the interval is negative and a second call is due |
| Retry.SameRun | yellowbox/retry.py:103-110 | the two loops make the same run if and only if no negative sleep comes due |
| Retry.CallBound | yellowbox/retry.py:59-71 | with positive interval and timeout there is a last call, among the first floor(timeout / interval) + 2, if a sleep advances the clock by at least its length |
| Retry.CallsWithinTimeout | yellowbox/retry.py:59-71 | so a run of either loop halts and makes at most floor(timeout / interval) + 2 calls |
| Retry.NegativeSleepDiffers | yellowbox/retry.py:70 | a case in which they differ: two attempts, a listed failure and a negative interval |
| Retry.TerminatesExactlyWhen | yellowbox/retry.py:51-71 | a valid specification ends whatever the action does, on any fair clock, if and only if it has attempts, or a negative timeout, or a positive timeout with a positive interval |
| Retry.RunsForever | yellowbox/retry.py:59-62 | a zero timeout is none: without attempts the run ends if and only if the action ever stops failing with listed exceptions |

## Left out

- Containers, networks, images, the database, queue and storage services: thin wrappers over foreign programs.
- Sockets, selectors, uvicorn, Starlette routing and threads as such: only the events that reach the code and its own steps are modelled; failures of `shutdown` and `close` are not.
- JSON, text encodings, regular expressions and lower-casing: parameters of the model; body validators are any partial predicate on the content, without an answer where they raise.
- Message texts, `repr`, logging and the small request-count assertions: out of scope.
- Generator side effects of `websocket.py`, `http_server.py` and `iter_side_effects` are not part of this model.
- PendingErrors.NoStartWhilePending: one server with its one event loop; an endpoint moved to another server while one of its handlers runs is not modelled, and an exception object is taken to be truthy.
- MockServer.MockEndpoint.Record: the loop over the captures is one step; a capture entered or left by the test thread in the middle of it is not modelled. Captures are named by their index in the list of all captures made instead of being list objects.
- MockServer.Operate: the route lock is not modelled; each operation is one step.
- Vault.VaultService.ClearSecrets: the client is taken to drop leading slashes and nothing else from a path, and stored paths to begin and end with a name.
- ClassEndpoints.DefineClasses: the checks Python itself makes on bases (duplicates, method resolution order) are not modelled.
- Retry.Retry: time is a real number, so the infinities and NaN of floats are left out; cancellation of `aretry` too.
