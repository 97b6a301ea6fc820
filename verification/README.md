# CodeClosure: verification model

CodeClosure is a control runtime that decides when an AI coding goal is complete. This project models,
in Dafny 4.11, the parts of it on which that decision rests, and proves what they promise over all
inputs and all runs. `dafny verify dfyconfig.toml` checks the whole project.

* **JSON.** Every digest is taken over the canonical printer and every byte of the backend enters
  through the bounded parser. `JsonGrammar` states the grammar of RFC 8259 as parse trees that render
  texts, and `JsonSpelling` its tokens in characters; `JsonReader` proves a reader exact for it;
  `StrictJson` has the duplicate-key scanner and the bounded visitor as classes and proves the parser
  exact; `JsonPaths` says what its limits count; `CanonicalJson` has the RFC 8785 printer and its round
  trip through that parser; `JsonGraph` decodes graphs of JavaScript objects.
* **The App Server client.** `Framing` cuts the byte stream into lines. `ClientModel` says what each
  event does to a client and `Client` is the object, field by field. `ClientRuns`, `ClientCompactions`,
  `ClientResponses`, `ClientReadiness` and `ClientFailures` are about whole runs, `ClientTables` about
  single events, and `ClientConnection` brings them to the object.
* **The Codex adapter.** `ObserverModel` and `InvocationObserver`, `WorkerRunModel` and `WorkerAdapter`
  relate the observer and the run skeleton in the same way; `WorkerRuns`, `WorkerReports`,
  `WorkerCompactions`, `WorkerCompletion` and `WorkerOutcomes` are about whole Worker runs, `WorkerFaults`
  about single notifications, and `WorkerConnection` brings them to the object.
* **The lifecycle.** `Workflow`, `Attempt`, `Recovery` and `Candidate` have the pairs of deciding on
  a command and applying its event; `LifecycleTables` says what each command leads to and why it is
  rejected; `Lifecycle` has the runs of a Workflow with its active Attempt.
* **Acceptance.** `EvidencePolicy`, `Acceptance`, `EvidenceSets` and `ContextCompiler` relate loops
  that validate to declarative specifications, and say when a decision accepts; `AcceptanceOutcomes` has
  every decision as a table over the records.

`CodeUnits`, `JsonValues`, `JsonAccess`, `Sequences`, `Sorting`, `SafeIntegers` and `Options` are shared.

A class whose methods update fields is a class here, each method tied to a function from states to
states. The theorems about runs are about those functions; a connection holds an object together with
the ghost list of its events, and says that the object is where their run leads. Ghost fields record
which promises were settled and how. A thrown exception is `None`, `false` or an error value, never a precondition.

## Hypotheses

* `startAppServerClient` hands a client out only when `initialize` has ended, so a shutdown of an open
  client comes after the request of `initialize` (`ShutdownsWait`). `NothingPendingAfterTheEnd` assumes
  this; `ShutdownIsFinalExactly` is about all runs.
* An exception of the host's notification handler fails the client
  (packages/codex-app-server-client/src/client.ts:1075-1085), and a failed client does not shut down cleanly.
* The adapter and the client throw no error that itself says BACKEND_TURN_FAILED (`Possible`).
* The engine writes every double as a number token that it reads back as that double (`Lawful`).
* Timers, aborts, stream errors, the process and the host are events that may happen between any two
  stretches of code. An `async` function is cut at its awaits.

## Where the code does less than one might expect

* With equal limits, which packages/codex-app-server-client/src/limits.ts:52 allows, a line of the
  largest permitted length trips the buffer limit (`LongestLineTrips`, `ByteWiseTripsExactly`).
* The order of rejected guard results can decide which rejection is given (`OrderDecidesTheFault`), and
  does so exactly when more than one fault can be found in them (`OrderMattersExactly`).
* A failed turn loses its result event in an unclean shutdown, or when the event cannot be built
  (`UncleanShutdownLosesTheEvent`, `FailedConstructionLosesTheEvent`). `TerminalRelationExactly` says
  when in terms of the report, `TerminalRelationInAdvance` in terms of what precedes the shutdown.
* A shutdown before the request of `initialize` does not prevent that request, which is then never
  settled if the process exits (`InitializeIsNeverSettled`). `ShutdownIsFinalExactly` says when a
  shutdown is final.
* A client that is shut down before `initialized` is sent, and that does not exit in time, stays ready
  although it has failed (`ReadyOutlivesTimeout`); it issues nothing, since it was asked to shut down.
* Two entries of a context can have one key if a source contains the separator of keys
  (`SeparatorsCollide`); without it the keys are exact (`KeysExactly`).
* `decideWorkflow` accepts a cancellation that comes before the start of the active Attempt, which then
  does not apply to the Attempt (`CancellationsApply`). No reachable state allows it, since a running
  Workflow was updated when its Attempt started (`ReachableStates`, `AcceptedCommandsContinue`).

## Model

| member | source | states |
|---|---|---|
| `JsonReader.DocumentExact` | packages/codex-app-server-client/src/strict-json.ts:28-185 | The reader splits a text into a parse tree exactly when the tree is well formed in the grammar of sections 2 to 7 of RFC 8259 and renders that text; a text has at most one tree. |
| `StrictJson.ScanDocumentExact` | packages/codex-app-server-client/src/strict-json.ts:28-185 | The scanner consumes a whole text exactly when some well-formed document renders it and every object in it has distinct keys after unescaping. |
| `JsonSpelling.TokenSpelledExactly` | packages/codex-app-server-client/src/strict-json.ts:127-168 | A string token means a text exactly when, between quotes, it spells each unit plainly, by one of eight short escapes, or by its four digits of base 16, each in either case. |
| `JsonSpelling.ObjectKeysDiffer` | packages/codex-app-server-client/src/strict-json.ts:77-106 | An object is free of duplicate keys exactly when no two of its keys, however they are spelled, spell the same text, and so are its values. |
| `JsonSpelling.NumbersExactly` | packages/codex-app-server-client/src/strict-json.ts:170-185 | The number tokens are exactly what an automaton of ten states accepts, character by character. |
| `JsonPaths.BoundedExactly` | packages/codex-app-server-client/src/strict-json.ts:194-236 | A value is within the limits on depth and size exactly when no path in it is too long and nothing at the end of a path too large. |
| `JsonPaths.NodesExactly` | packages/codex-app-server-client/src/strict-json.ts:194-236 | What is counted against the node limit is the number of paths of a value. |
| `StrictJson.DuplicateKeyScanner.Scan` | packages/codex-app-server-client/src/strict-json.ts:28-35 | Terminates on every code-unit string, and succeeds exactly when the text is a document of the grammar with distinct keys. |
| `StrictJson.DuplicateKeyScanner.Value` | packages/codex-app-server-client/src/strict-json.ts:58-75 | Succeeds exactly when a value with distinct keys begins here, and then stands right after it. |
| `StrictJson.DuplicateKeyScanner.Object` | packages/codex-app-server-client/src/strict-json.ts:77-106 | The same for an object, with the set of keys seen so far. |
| `StrictJson.DuplicateKeyScanner.Member` | packages/codex-app-server-client/src/strict-json.ts:86-97 | One member up to the end of its value; fails on a key that was seen before. |
| `StrictJson.DuplicateKeyScanner.Array` | packages/codex-app-server-client/src/strict-json.ts:108-125 | The same for an array. |
| `StrictJson.DuplicateKeyScanner.String` | packages/codex-app-server-client/src/strict-json.ts:127-168 | Succeeds exactly when a string token begins here; the key returned is the token after unescaping. |
| `StrictJson.DuplicateKeyScanner.NumberToken` | packages/codex-app-server-client/src/strict-json.ts:177-185 | Succeeds exactly when a number token begins here; it then stands after such a token, and none that begins here is longer. |
| `JsonReader.NumberLongest` | packages/codex-app-server-client/src/strict-json.ts:177-185 | Whatever follows a number token, the reader takes at least the whole of it. |
| `StrictJson.BoundedVisitor.Visit` | packages/codex-app-server-client/src/strict-json.ts:194-236 | Succeeds exactly when the shared node counter plus the size of the value stays within the node limit, every depth and collection size is within its limit and all numbers are finite; a failure names a limit that is exceeded. |
| `StrictJson.BoundedVisitor.VisitItems` | packages/codex-app-server-client/src/strict-json.ts:214-219 | The same for the items of an array, with the counter running on. |
| `StrictJson.BoundedVisitor.VisitMembers` | packages/codex-app-server-client/src/strict-json.ts:223-232 | The same for the members of an object, taken in any order. |
| `StrictJson.ParseBoundedJson` | packages/codex-app-server-client/src/strict-json.ts:238-256 | Parser exactness: succeeds exactly when the limits are valid and the text is in the grammar, with distinct keys and a finite value within the limits; the value is the only one the text has. It is a text exactly when, between blanks, the document spells that text, and a finite number exactly when an automaton accepts the document as a number that the engine reads so. |
| `CanonicalJson.AssertUnicodeScalarSequence` | packages/runtime/src/canonical-json.ts:18-33 | The loop with its skips accepts exactly the strings in which every surrogate is paired. |
| `CanonicalJson.QuotesShortest` | packages/runtime/src/canonical-json.ts:35-47 | Every unit of a string is printed in the shortest of its spellings, with lower-case digits. |
| `CodeUnits.LessExactly` | packages/runtime/src/canonical-json.ts:8-16 | The order of keys is decided where they first differ, by code unit, and a proper prefix comes first. |
| `CanonicalJson.CanonicalAccepts` | packages/runtime/src/canonical-json.ts:18-67 | The printer accepts exactly the decodable values in which no string or key has a lone surrogate. |
| `CanonicalJson.CanonicalRoundTrip` | packages/runtime/src/canonical-json.ts:39-67 | The scanner consumes the printed text completely; its tree has no blanks, has its members sorted by code unit (sections 3.2.2 and 3.2.3 of RFC 8785) and means the value. |
| `CanonicalJson.CanonicalParses` | packages/runtime/src/canonical-json.ts:39-67 | The bounded parser accepts the printed text within exactly the limits that the value respects, and gives the value back. |
| `CanonicalJson.CanonicalInjective` | packages/runtime/src/canonical-json.ts:39-67 | Two values print equally exactly when they are the same value up to member order. |
| `CanonicalJson.SafeIntegersAreLawful` | packages/runtime/src/canonical-json.ts:39-47 | The hypothesis on number tokens holds of all safe integers, minus signs included. |
| `JsonGraph.GraphDecoder.Decode` | packages/runtime/src/contracts.ts:318-387 | Terminates on every finite object graph, cyclic ones included; the set of ancestors is restored on every way out. |
| `JsonGraph.GraphDecoder.DecodeArray` | packages/runtime/src/contracts.ts:337-357 | The loop over an array, with its checks for stray keys, holes and accessors. |
| `JsonGraph.GraphDecoder.DecodeObject` | packages/runtime/src/contracts.ts:359-379 | The loop over the properties of a plain object, in any order. |
| `JsonGraph.DecodesExactly` | packages/runtime/src/contracts.ts:318-387 | A graph decodes exactly when no object reachable from the root reaches itself and every reachable object is dense plain data with acceptable leaves; shared objects are accepted. |
| `JsonGraph.DecodedAlike` | packages/runtime/src/contracts.ts:318-387 | A shared object decodes to the same value wherever it is met. |
| `JsonGraph.DecodesToExactly` | packages/runtime/src/contracts.ts:318-387 | A graph decodes to a value exactly when it denotes it: a declarative reading of the graph, without ancestors or an order of visiting. |
| `JsonGraph.DecodingAgainChangesNothing` | packages/runtime/src/contracts.ts:318-387 | Decoding the result again, whatever objects it is made of, gives the same value. |
| `JsonGraph.DecodedIsDecodable` | packages/runtime/src/contracts.ts:318-387 | What is decoded satisfies what the canonical printer demands. |
| `JsonGraph.NumbersExactly` | packages/runtime/src/contracts.ts:322-327 | A number is decoded, as itself, exactly when it is finite and not an integer of 2 to the power of 53 or beyond. |
| `Framing.FramedStdout.ReceiveStdout` | packages/codex-app-server-client/src/client.ts:749-820 | Splits the buffer at each newline and delivers the lines in order, up to the first failure; the new buffer, lines and failure are those of one draining. |
| `Framing.FramedStdout.StdoutEnded` | packages/codex-app-server-client/src/client.ts:1247-1269 | Fails when a partial line is left, or at an unexpected end. |
| `Framing.ChunkingDoesNotMatter` | packages/codex-app-server-client/src/client.ts:749-820 | Two cuts of one byte stream that do not trip the buffer limit deliver the same lines and end alike, before and after the end of the stream. |
| `Framing.BufferBetweenCalls` | packages/codex-app-server-client/src/client.ts:810-819 | Between calls, an unfailed buffer has no newline and no more bytes than a line may have. |
| `Framing.ByteWiseTripsExactly` | packages/codex-app-server-client/src/limits.ts:23-33 | Delivery byte by byte never trips the buffer limit exactly when the buffer limit exceeds the line limit. |
| `Framing.LongestLineTrips` | packages/codex-app-server-client/src/limits.ts:45-56 | With equal limits, which the checks allow, a line of the largest permitted length trips the buffer limit however it is cut. |
| `Framing.DeliversTheStream` | packages/codex-app-server-client/src/client.ts:749-820 | The lines that were delivered, each with its newline, and the rest make up the stream; all but a last one are fine, and a framing that has failed failed on that rest or on its last line. |
| `Framing.TrippingFails` | packages/codex-app-server-client/src/client.ts:749-762 | A run that trips the buffer limit fails with that limit for good. |
| `Framing.EndsExactly` | packages/codex-app-server-client/src/client.ts:1247-1269 | A stream that has not failed ends well exactly after a shutdown and with its last line complete; otherwise it is malformed, or the process has exited. |
| `Client.AppServerClient.RejectPending` | packages/codex-app-server-client/src/client.ts:1320-1326 | The loop rejects every pending request once and empties the table. |
| `Client.AppServerClient.RejectCompactions` | packages/codex-app-server-client/src/client.ts:1328-1335 | The loop rejects every manual tracker once and empties both tables. |
| `Client.AppServerClient.Fail` | packages/codex-app-server-client/src/client.ts:1296-1305 | The first failure wins and rejects everything; a later one changes nothing. |
| `Client.AppServerClient.ProcessExited` | packages/codex-app-server-client/src/client.ts:1271-1294 | An exit closes the client, and rejects everything unless a shutdown or a failure came first. |
| `Client.AppServerClient.Shutdown` | packages/codex-app-server-client/src/client.ts:609-651 | Asks for the shutdown and rejects everything, unless the client is closed. |
| `Client.AppServerClient.RequestInternal` | packages/codex-app-server-client/src/client.ts:653-713 | Refuses, or issues the next id and makes it pending. |
| `Client.AppServerClient.Request` | packages/codex-app-server-client/src/client.ts:486-533 | The public checks in their order, then the request. |
| `Client.AppServerClient.SpawnSettled` | packages/codex-app-server-client/src/client.ts:447-463 | The request of `initialize`, made once the process was spawned. |
| `Client.AppServerClient.InitializeSettled` | packages/codex-app-server-client/src/client.ts:464-483 | What becomes of the response to `initialize`. |
| `Client.AppServerClient.InitializedSent` | packages/codex-app-server-client/src/client.ts:464-483 | The client is ready, unless it has failed or closed meanwhile. |
| `Client.AppServerClient.ReceiveMessage` | packages/codex-app-server-client/src/client.ts:822-879 | Which handler a message goes to, by its method, id and header. |
| `Client.AppServerClient.ReceiveResponse` | packages/codex-app-server-client/src/client.ts:881-970 | Settles the one pending request with the id of the response, or fails the client. |
| `Client.AppServerClient.ReceiveServerRequest` | packages/codex-app-server-client/src/client.ts:972-997 | Registers the id of a server request, or fails on a malformed, repeated or excessive one. |
| `Client.AppServerClient.ReceiveNotification` | packages/codex-app-server-client/src/client.ts:1045-1086 | Counts the notification, observes compactions and hands it to the host, whose exception fails the client. |
| `Client.AppServerClient.ObserveStart` | packages/codex-app-server-client/src/client.ts:1131-1168 | The start of a compaction is recorded, and bound to the tracker of its thread if that has none yet. |
| `Client.AppServerClient.ObserveCompletion` | packages/codex-app-server-client/src/client.ts:1170-1196 | The completion of a recorded compaction is matched with its start and its tracker. |
| `Client.AppServerClient.ObserveTurn` | packages/codex-app-server-client/src/client.ts:1089-1110 | The completion of the turn of a tracker. |
| `Client.AppServerClient.CompleteManualCompaction` | packages/codex-app-server-client/src/client.ts:1198-1214 | A tracker resolves once both completions are in. |
| `Client.AppServerClient.CompactThread` | packages/codex-app-server-client/src/client.ts:542-590 | A manual compaction registers its tracker before it sends its request. |
| `Client.AppServerClient.CompactCaught` | packages/codex-app-server-client/src/client.ts:592-598 | A failed call drops its own tracker and no other. |
| `ClientRuns.StepKeeps` | packages/codex-app-server-client/src/client.ts:295-1336 | Every event keeps the invariant on requests, compactions and initialization, and keeps what was decided. |
| `ClientRuns.RequestConservation` | packages/codex-app-server-client/src/client.ts:653-713 | At every point of every run the ids issued are the disjoint union of the pending and the settled ones, as many were settled as calls settled one, and the tables are within their limits; the same holds for manual compactions. |
| `ClientRuns.DecisionsStand` | packages/codex-app-server-client/src/client.ts:1271-1335 | The first failure, the closing, and the outcome of every settled request and ended compaction never change. |
| `ClientRuns.NothingPendingAfterTheEnd` | packages/codex-app-server-client/src/client.ts:609-651 | Once a client that was started by `startAppServerClient` has failed, exited or been asked to shut down, nothing is pending. |
| `ClientRuns.ShutdownIsFinalExactly` | packages/codex-app-server-client/src/client.ts:447-484 | In any run whatever: a shutdown empties the table for good exactly when the request of `initialize` cannot come after it in a client that is open, and a client that is closed already has nothing pending. |
| `ClientRuns.ClosedSettlesNothing` | packages/codex-app-server-client/src/client.ts:1271-1294 | After the exit of the process nothing is issued or settled any more. |
| `ClientRuns.InitializeIsNeverSettled` | packages/codex-app-server-client/src/client.ts:447-484 | So a shutdown during the spawn, followed by the exit, leaves the request of `initialize` pending for ever, whatever happens later. |
| `ClientCompactions.OpenTrackersHaveHistory` | packages/codex-app-server-client/src/client.ts:1088-1214 | While a client is open, each tracker has its request, its only start and its completions in the run. |
| `ClientCompactions.ResolutionJustified` | packages/codex-app-server-client/src/client.ts:542-599 | A manual compaction that resolved had its request, then the only start on its thread since, then the completions of that item and of its turn, in either order, the later of which resolved it. |
| `ClientCompactions.SecondCompletionResolves` | packages/codex-app-server-client/src/client.ts:1170-1214 | And the second of the two completions does resolve it, in an open client that has the start on record and whose compaction handler does not throw. |
| `ClientResponses.ResolvedByItsResponse` | packages/codex-app-server-client/src/client.ts:881-970 | A request resolves only when a response with its id and an acceptable result arrives while it is pending. |
| `ClientResponses.ResolvesExactly` | packages/codex-app-server-client/src/client.ts:881-970 | One event resolves a request exactly when it is the acceptable response to it, in an open client that has it pending. |
| `ClientResponses.ResolvedExactly` | packages/codex-app-server-client/src/client.ts:881-970 | Over whole runs: a request has resolved exactly when such a response arrived. |
| `ClientReadiness.ReadyExactly` | packages/codex-app-server-client/src/client.ts:447-484 | Over whole runs: the client is ready exactly when the request of `initialize` resolved, `initialized` was then sent for the first time, without an error and in a client still open, and since then it was not shut down, did not exit and did not fail but by a shutdown that timed out. |
| `ClientReadiness.RequestsExactly` | packages/codex-app-server-client/src/client.ts:486-533 | A request is refused with each code exactly when its reason holds of the run; otherwise, so exactly when the client is usable, the method stable, the host has not aborted, the timeout is valid and there is room, it is issued with the next id and is pending with its method. |
| `ClientReadiness.ReadyOutlivesTimeout` | packages/codex-app-server-client/src/client.ts:609-651 | A run whose client is ready although it has failed: it was shut down before `initialized` was sent, and did not exit in time. |
| `ClientReadiness.HandshakeExactly` | packages/codex-app-server-client/src/client.ts:822-879 | Messages with a method are let in exactly after the answer to `initialize`. |
| `ClientFailures.ObservesExactly` | packages/codex-app-server-client/src/client.ts:1088-1131 | What a notification means for compactions, told by its properties. |
| `ClientFailures.FailureExactly` | packages/codex-app-server-client/src/client.ts:295-1336 | Over whole runs: the client has failed with a code exactly when an event that is a cause of that code came while it was open; the causes are listed by code. |
| `ClientFailures.HowRequestsEnd` | packages/codex-app-server-client/src/client.ts:881-1336 | Every request that has ended was pending at the event that ended it in its way: with the failure of the client, by the shutdown, by its answer, or by a rejection of the server. |
| `ClientFailures.EndsExactly` | packages/codex-app-server-client/src/client.ts:881-1336 | At one event a pending request ends exactly when the client fails, is shut down, or receives the response to it. |
| `ClientFailures.ServesExactly` | packages/codex-app-server-client/src/client.ts:972-1086 | The ids on record are those of the server requests that were rightly served, each once, and the sequence counts the notifications. |
| `ClientTables.KeysExactly` | packages/codex-app-server-client/src/client.ts:163-171 | A request is known by a text of 1 to 256 units or by a safe integer. |
| `JsonAccess.Utf8LengthExactly` | packages/codex-app-server-client/src/client.ts:157-161 | The length in bytes: one for each unit, one more from U+0080 and another from U+0800 on, and four for a pair of surrogates. |
| `ClientTables.CallsExactly` | packages/codex-app-server-client/src/client.ts:542-590 | Why a manual compaction is refused, by code, and what is registered when it is taken up. |
| `ClientTables.CaughtDrops` | packages/codex-app-server-client/src/client.ts:592-598 | A call that did not succeed drops its own tracker, and changes nothing otherwise. |
| `ClientTables.EndsClear` | packages/codex-app-server-client/src/client.ts:1296-1336 | A failure, and a shutdown, leave no compaction tracked and none on record. |
| `ClientTables.RecordsExactly` | packages/codex-app-server-client/src/client.ts:1131-1196 | As long as the client does not fail, the starts on record are those that were notified and not completed. |
| `ClientConnection.Connection.Conserves` | packages/codex-app-server-client/src/client.ts:295-1336 | Of the object itself, whatever was called: each id issued is pending or settled, never both, was settled once, and the tables are within their limits. |
| `ClientConnection.Connection.Resolves` | packages/codex-app-server-client/src/client.ts:881-970 | Of the object: a request has resolved exactly when a response to it arrived while it was pending. |
| `ClientConnection.Connection.Request` | packages/codex-app-server-client/src/client.ts:486-533 | A request that is issued is new and is pending in the object. |
| `ClientConnection.Connection.Fail` | packages/codex-app-server-client/src/client.ts:1296-1305 | A failure of an open object leaves nothing pending, and a later failure does not replace the first. |
| `ClientConnection.Connection.Shutdown` | packages/codex-app-server-client/src/client.ts:609-651 | A shutdown of an object that is not closed leaves nothing pending, for good exactly when it is final. |
| `InvocationObservers.InvocationObserver.Fail` | packages/adapter-codex/src/adapter.ts:487-493 | The first failure wins and fixes the state. |
| `InvocationObservers.InvocationObserver.Cancel` | packages/adapter-codex/src/adapter.ts:507-513 | A cancellation replaces the failure of a turn, and no other. |
| `InvocationObservers.InvocationObserver.ValidateRefs` | packages/adapter-codex/src/adapter.ts:812-825 | Fails when a thread or a turn on record is not the bound one. |
| `InvocationObservers.HasOtherThan` | packages/adapter-codex/src/adapter.ts:812-825 | The loop finds a reference other than the bound one exactly when there is one. |
| `InvocationObservers.InvocationObserver.BindThread` | packages/adapter-codex/src/adapter.ts:552-555 | Binds the thread and checks what was seen before. |
| `InvocationObservers.InvocationObserver.BindTurn` | packages/adapter-codex/src/adapter.ts:557-564 | Binds the turn, which must not be the maintenance turn. |
| `InvocationObservers.InvocationObserver.BeginManualCompaction` | packages/adapter-codex/src/adapter.ts:566-576 | A manual compaction begins once, before the operation. |
| `InvocationObservers.InvocationObserver.FinishManualCompaction` | packages/adapter-codex/src/adapter.ts:578-590 | It ends only with exactly one compaction and the end of its turn on record. |
| `InvocationObservers.InvocationObserver.Complete` | packages/adapter-codex/src/adapter.ts:592-597 | Records the result event, and completes a run without a failure. |
| `InvocationObservers.InvocationObserver.RecordApproval` | packages/adapter-codex/src/adapter.ts:599-605 | An approval request is recorded and fails the run. |
| `InvocationObservers.InvocationObserver.RecordCompaction` | packages/adapter-codex/src/adapter.ts:607-650 | Counts a compaction, and fails unless it is the one that was asked for. |
| `InvocationObservers.InvocationObserver.RecordItem` | packages/adapter-codex/src/adapter.ts:827-870 | An item is refused, or recorded with its message. |
| `InvocationObservers.InvocationObserver.RecordNotification` | packages/adapter-codex/src/adapter.ts:652-783 | Every thread, turn and item of a notification goes on record; says whether it threw. |
| `InvocationObservers.InvocationObserver.RecordTerminal` | packages/adapter-codex/src/adapter.ts:736-781 | The terminal turn: that of the maintenance, the only one of the operation, or a failure. |
| `WorkerFaults.ForbiddenExactly` | packages/adapter-codex/src/adapter.ts:61-98 | What is forbidden, by name space; of the remote control only the report that it is disabled is let in. |
| `WorkerFaults.NamesExactly` | packages/adapter-codex/src/adapter.ts:672-702 | The threads and turns that a notification names, by its parameters; only the start of a thread or a turn names one inside them. |
| `WorkerFaults.ProjectsExactly` | packages/adapter-codex/src/protocol.ts:495-513 | The end of a turn is projected from exactly the notification that describes it; one that describes none throws. |
| `WorkerFaults.MaintenanceEndsExactly` | packages/adapter-codex/src/adapter.ts:736-760 | The maintenance turn ends well once, completed without an error and with the announced compaction as its only item. |
| `WorkerFaults.NotificationExactly` | packages/adapter-codex/src/adapter.ts:652-783 | Whatever the records: the handler throws exactly on a malformed end of a turn, the verdict fails exactly when the notification is to blame for something, with the code of the first such thing, and the records are those it leads to. |
| `WorkerFaults.CompactionExactly` | packages/adapter-codex/src/adapter.ts:607-650 | A compaction event fails the run exactly when it is not the one that was asked for. |
| `WorkerFaults.ApprovalExactly` | packages/adapter-codex/src/adapter.ts:599-605 | An approval request fails every run, and is on record. |
| `WorkerAdapter.CodexWorkerAdapter.Launch` | packages/adapter-codex/src/adapter.ts:1017-1048 | The run up to its first await. |
| `WorkerAdapter.CodexWorkerAdapter.ThreadReady` | packages/adapter-codex/src/adapter.ts:1143-1170 | The thread is checked and bound, and the compaction begun when the policy asks for one. |
| `WorkerAdapter.CodexWorkerAdapter.CompactionReturned` | packages/adapter-codex/src/adapter.ts:1171-1191 | The compacted thread is the bound one, and the compaction is over. |
| `WorkerAdapter.CodexWorkerAdapter.TurnReady` | packages/adapter-codex/src/adapter.ts:1209-1216 | The turn is bound. |
| `WorkerAdapter.CodexWorkerAdapter.Waited` | packages/adapter-codex/src/adapter.ts:1218-1253 | The five ways in which waiting for the terminal turn ends. |
| `WorkerAdapter.CodexWorkerAdapter.Terminated` | packages/adapter-codex/src/adapter.ts:1251-1283 | A failed turn, or a completed one with an acceptable payload. |
| `WorkerAdapter.CodexWorkerAdapter.ShutDown` | packages/adapter-codex/src/adapter.ts:1291-1308 | An unclean shutdown loses the event, and fails a run that has not failed. |
| `WorkerAdapter.CodexWorkerAdapter.Settle` | packages/adapter-codex/src/adapter.ts:1310-1327 | Which event completes the observer at the end. |
| `WorkerAdapter.CodexWorkerAdapter.EmitTerminal` | packages/adapter-codex/src/adapter.ts:1328-1349 | What is yielded and reported. |
| `WorkerRuns.TerminalRelationExactly` | packages/domain/src/external-execution.ts:879-914 | Every TERMINAL event of every run satisfies the relation of terminal observations exactly when it does not report a failed turn whose Worker Event could not be built or was lost to an unclean shutdown; an event was yielded exactly when its id is reported. |
| `WorkerReports.TerminalRelationInAdvance` | packages/adapter-codex/src/adapter.ts:1251-1349 | The same from what is known when the shutdown ends: a report violates the relation exactly when it comes to its shutdown with a failed turn, the host does not cancel, and the event could not be built, a handler had thrown or the shutdown is unclean. |
| `WorkerReports.UncleanShutdownLosesTheEvent` | packages/adapter-codex/src/adapter.ts:1292-1306 | The exception happens: a run from the launch on, with the notification of a failed turn and an unclean shutdown, is reported without its event. |
| `WorkerReports.FailedConstructionLosesTheEvent` | packages/adapter-codex/src/adapter.ts:1260-1283 | So is the same run when the Worker Event of the failed turn cannot be built, however the client closes. |
| `WorkerCompletion.GoingRuns` | packages/adapter-codex/src/adapter.ts:416-825 | As long as a run has not failed, every thread and turn that was mentioned is on record and fits. |
| `WorkerCompletion.CompletedRunsAreClean` | packages/adapter-codex/src/adapter.ts:1158-1216 | A run reported as COMPLETED had no failure and no approval request, only its own thread, only its own turn and a different maintenance turn, and it yielded its result; under the manual policy the compaction events it saw are one start and the completion of the same item, on its thread and its maintenance turn, and otherwise it saw none. |
| `WorkerCompletion.CompletesExactly` | packages/adapter-codex/src/adapter.ts:1291-1349 | A run that comes to its shutdown is reported as COMPLETED exactly when nothing has failed in it, the shutdown is clean and the host has not cancelled it. |
| `WorkerOutcomes.FailsExactly` | packages/adapter-codex/src/adapter.ts:416-1349 | Over whole runs: a run has failed exactly when some event was to blame, and its handler has thrown exactly when a malformed end of a turn was notified. |
| `WorkerOutcomes.FailsWithTheFirst` | packages/adapter-codex/src/adapter.ts:487-513 | A run fails with a code of the first event that was to blame; only a cancellation may replace the failure of a turn. |
| `WorkerOutcomes.CompletedExactly` | packages/adapter-codex/src/adapter.ts:1143-1349 | A run is reported as COMPLETED exactly when it came to a clean shutdown that the host did not abort, with nothing to blame and nothing thrown before. |
| `WorkerOutcomes.RunsComplete` | packages/adapter-codex/src/adapter.ts:1143-1349 | There are such runs: for any thread, turn, prompt and event, a run that is reported as COMPLETED and yields that event. |
| `WorkerOutcomes.InterruptedExactly` | packages/adapter-codex/src/adapter.ts:1218-1253 | A run is being interrupted with a code only after its wait was given up for that reason. |
| `WorkerOutcomes.CompletedRunsAreAllowed` | packages/adapter-codex/src/adapter.ts:652-870 | In a run reported as COMPLETED no notification was forbidden, and every item, whether notified or in the terminal turn, was allowed under the digest of its prompt at the place where it was, but for the items of the manual compaction. |
| `WorkerOutcomes.CompletedRunsWereAccepted` | packages/adapter-codex/src/adapter.ts:1251-1283 | A run reported as COMPLETED yields the event that was built from an accepted payload of a completed turn. |
| `WorkerOutcomes.ReportsExactly` | packages/adapter-codex/src/adapter.ts:1328-1349 | A report names the thread, the turn, the compactions and the event that are on record. |
| `WorkerCompactions.AccountsStep` | packages/adapter-codex/src/adapter.ts:607-650 | Every step that does not fail keeps the account of the compaction events seen: each completion follows the start of its item, every start on record was seen, and as many were completed as the observer counts. |
| `WorkerConnection.Connection.Reports` | packages/adapter-codex/src/adapter.ts:1328-1349 | Of the object itself: what it reports as COMPLETED was clean, its report violates the relation exactly when its run lost its event, and what it yields is what it reports. |
| `WorkerConnection.Connection.ShutDown` | packages/adapter-codex/src/adapter.ts:1291-1349 | The shutdown of the object reports: COMPLETED exactly when nothing has failed, it is clean and nothing aborted it; the relation is violated exactly when the event is lost. |
| `Workflow.ValidateGuardResults` | packages/domain/src/workflow.ts:268-351 | The two loops compute the validation, with the first fault they find. |
| `Workflow.GuardsValidExactly` | packages/domain/src/workflow.ts:268-351 | They accept exactly one passing, supported result per required guard and nothing else, and return the results in the order of the requirement. |
| `Workflow.RevalidationChangesNothing` | packages/domain/src/workflow.ts:268-351 | What was validated validates again, to the same results. |
| `Workflow.OrderDoesNotMatter` | packages/domain/src/workflow.ts:268-351 | Any permutation of accepted results is accepted with the same outcome. |
| `Workflow.OrderMattersExactly` | packages/domain/src/workflow.ts:268-351 | All orders of a list of results, accepted or rejected, have the same outcome exactly when at most one fault can be found among them: a guard with a blank result, one that is not required, or a required one that is given twice. |
| `Workflow.OrderDecidesTheFault` | packages/domain/src/workflow.ts:277-312 | So wherever one result is blank and another is not required, two orders of the results are rejected differently. |
| `Workflow.RequiredIsDistinct` | packages/domain/src/workflow.ts:165-237 | No edge requires a guard twice, and every edge requires one. |
| `LifecycleTables.GuardsExactly` | packages/domain/src/workflow.ts:165-237 | The guard table read by guard: for each guard the edges that need it. |
| `LifecycleTables.EdgesExactly` | packages/domain/src/workflow.ts:165-260 | A guarded edge leads from each phase to the next, and from FINAL_VERIFY back to IMPLEMENT. |
| `LifecycleTables.ValidationFaults` | packages/domain/src/workflow.ts:268-351 | Rejected results are rejected for their first fault: of a supplied result, in their order, and else of a required guard, in the order of the requirement. |
| `Workflow.WorkflowDecisionsApply` | packages/domain/src/workflow.ts:414-688 | Every accepted command gives an event that applies, to a valid Workflow at the next version and the time of the command. |
| `Workflow.AppliesExactly` | packages/domain/src/workflow.ts:562-688 | An event applies exactly when deciding on its command gives that very event, with its reason trimmed and its guard results in order: nothing applies that would have been rejected. |
| `LifecycleTables.WorkflowOutcomes` | packages/domain/src/workflow.ts:562-688 | What each accepted command leads to: CANCELLED, FAILED, or the requested phase, CLOSED exactly in CLOSEOUT and READY elsewhere; with the trimmed reason of the suspension, and nothing else changed. |
| `LifecycleTables.WorkflowRejections` | packages/domain/src/workflow.ts:414-553 | A command is rejected with the first objection to it, and accepted exactly when there is none. |
| `LifecycleTables.WorkflowIsValid` | packages/domain/src/workflow.ts:370-412 | A Workflow is valid exactly if its fields go with its status and its phase. |
| `LifecycleTables.CreationOutcomes` | packages/domain/src/workflow.ts:690-711 | A Workflow begins at the first version, READY in DISCOVERY, without an Attempt or a Candidate; a generation begins MUTABLE with its workspace trimmed. |
| `Attempt.DecodeEncode` | packages/domain/src/attempt.ts:260-270 | Decoding an encoded interruption reason gives it back, exactly when the text is not blank. |
| `Attempt.AttemptDecisionsApply` | packages/domain/src/attempt.ts:498-821 | Every accepted command gives an event that applies, to a valid Workflow and Attempt in exact authority, at the next version. |
| `Attempt.AttemptAppliesExactly` | packages/domain/src/attempt.ts:709-821 | An event applies exactly when deciding on its command gives that very event, with its reason trimmed behind the prefix of an interruption. |
| `Attempt.CancellationsApply` | packages/domain/src/attempt.ts:823-862 | An accepted cancellation applies to the Workflow and its Attempt exactly when it does not come before the start of the Attempt. |
| `Attempt.FinishIsAuthorized` | packages/domain/src/attempt.ts:299-318 | An Attempt that finishes leaves a Workflow status that its ending authorizes, and never one of a cancellation. |
| `Attempt.CancellationIsAuthorized` | packages/domain/src/attempt.ts:823-862 | So does a cancelled one, whose reason decodes to WORKFLOW_CANCELLED. |
| `LifecycleTables.AttemptOutcomes` | packages/domain/src/attempt.ts:498-821 | What each accepted command on Attempts leads to, for the Workflow and for the Attempt, with the status after a failure by its class and after an interruption by its reason. |
| `LifecycleTables.AttemptRejections` | packages/domain/src/attempt.ts:498-700 | A command on Attempts is rejected only with an objection to it, and accepted exactly when there is none. |
| `LifecycleTables.CancellationOutcomes` | packages/domain/src/attempt.ts:823-862 | A cancellation leaves the Workflow CANCELLED and its Attempt interrupted, both with the reason. |
| `LifecycleTables.InterruptionsExactly` | packages/domain/src/attempt.ts:277-297 | An interruption may leave the Workflow READY or BLOCKED on request or at a shutdown of the runtime, and BLOCKED after a reconciliation. |
| `LifecycleTables.AttemptIsValid` | packages/domain/src/attempt.ts:324-400 | An Attempt is valid exactly if its fields go with its status, and its grant is that of its phase. |
| `Recovery.AssertRecord` | packages/domain/src/recovery.ts:126-250 | The checks and the loop over the references accept exactly the valid records. |
| `Recovery.PlansApply` | packages/domain/src/recovery.ts:296-382 | Every planned recovery applies, to a valid Workflow at the next version in the same or an earlier phase, READY exactly when the record grants it. |
| `LifecycleTables.RecoveryOutcomes` | packages/domain/src/recovery.ts:296-382 | A recovery is planned exactly from a valid record that concerns the Workflow; it is to READY only if the expected project identity and Candidate digest were observed, in the same or an earlier phase, and otherwise the Workflow stays blocked where it is. |
| `LifecycleTables.RecordIsValid` | packages/domain/src/recovery.ts:126-250 | A record is valid exactly if nothing of a list is wrong with it. |
| `Candidate.CandidateDecisionsApply` | packages/domain/src/candidate.ts:297-464 | Every accepted command gives an event that applies, to a valid generation at the next version. |
| `Candidate.CandidateAppliesExactly` | packages/domain/src/candidate.ts:400-464 | An event applies exactly when deciding on its command gives that very event, with its reason trimmed or, when blank, left out. |
| `LifecycleTables.CandidateOutcomes` | packages/domain/src/candidate.ts:297-464 | What each accepted command on a generation leads to. |
| `LifecycleTables.CandidateRejections` | packages/domain/src/candidate.ts:297-398 | A command on a generation is rejected only with an objection to it, and accepted exactly when there is none. |
| `LifecycleTables.GenerationIsValid` | packages/domain/src/candidate.ts:213-290 | A generation is valid exactly if it has a frozen digest from FROZEN on, unless it was invalidated, and a reason exactly then. |
| `Candidate.FrozenStaysFrozen` | packages/domain/src/candidate.ts:400-464 | Over whole lives: versions count the events, a frozen digest never changes, and nothing follows an end. |
| `Candidate.AcceptedWasFrozen` | packages/domain/src/candidate.ts:297-464 | An accepted generation has exactly three events, freezing, frozen and accepted, and keeps the digest of the second. |
| `Lifecycle.OnlyImplementWrites` | packages/domain/src/capabilities.ts:87-121 | A valid Attempt may write Candidate source exactly in IMPLEMENT. |
| `LifecycleTables.GrantsExactly` | packages/domain/src/capabilities.ts:87-180 | The capabilities read by action: for each action the phases whose Attempts may do it. |
| `Lifecycle.ReachableStates` | packages/domain/src/attempt.ts:416-430 | In every reachable state Workflow and Attempt form one exact authority, a RUNNING Workflow was updated when its Attempt started, a suspension reason is present exactly in BLOCKED, FAILED and CANCELLED, nothing waits for input, and a writing Attempt is in IMPLEMENT with a bound Candidate. |
| `Lifecycle.EveryRunPassesGates` | packages/domain/src/workflow.ts:562-688 | Wherever a run stands from IMPLEMENT on, the guarded edges up to its phase fired in order since the active Candidate was selected. |
| `Lifecycle.CloseoutPassedEveryGate` | packages/domain/src/workflow.ts:211-237 | In every run that reaches CLOSED, since the last selection of a Candidate, which is the active one, the four guarded edges from IMPLEMENT to CLOSEOUT fired in this order with all required guards passing, whatever recoveries came in between. |
| `Lifecycle.IntegrityFailureIsFinal` | packages/domain/src/workflow.ts:609-632 | After an integrity failure only a cancellation applies, and then nothing: such a run is FAILED or CANCELLED, never CLOSED. |
| `Lifecycle.AcceptedCommandsContinue` | packages/domain/src/workflow.ts:414-553 | In every reachable state an accepted command continues the run, a cancellation together with its Attempt. |
| `Lifecycle.AcceptedAttemptCommandsContinue` | packages/domain/src/attempt.ts:498-821 | So does an accepted command of the active Attempt, or one that starts it. |
| `Lifecycle.PlannedRecoveriesContinue` | packages/domain/src/recovery.ts:296-382 | And so does a planned recovery. |
| `Lifecycle.EveryReadyRunCanClose` | packages/domain/src/workflow.ts:211-237 | No READY Workflow is stuck: from every reachable READY state a run goes on to CLOSED, as long as there are versions left. |
| `EvidencePolicy.ValidateMapping` | packages/runtime/src/candidate-evidence-policy.ts:137-183 | The loop over the obligations and the ordering by criterion compute the validation. |
| `EvidencePolicy.ObligationBijection` | packages/runtime/src/candidate-evidence-policy.ts:134-185 | For distinct criteria: accepted exactly when there are required criteria and as many obligations with distinct ids, each fitting a criterion of its own; returns the same obligations, one per criterion in criterion order. |
| `EvidencePolicy.NoObligationIsMissing` | packages/runtime/src/candidate-evidence-policy.ts:175-183 | The exception for a criterion without an obligation is never thrown: as many criteria as obligations, and none taken twice. |
| `EvidencePolicy.ObligationOrderDoesNotMatter` | packages/runtime/src/candidate-evidence-policy.ts:134-185 | Any permutation of the obligations gives the same result. |
| `EvidencePolicy.ValidatedIsInOrder` | packages/runtime/src/candidate-evidence-policy.ts:175-184 | Whatever the criteria, an accepted mapping has a given obligation for each of them, in order. |
| `EvidencePolicy.CreatedObligationsValidate` | packages/runtime/src/candidate-evidence-policy.ts:223-246 | Obligations created from distinct ids validate, unchanged. |
| `EvidencePolicy.CreatedPoliciesValidate` | packages/runtime/src/candidate-evidence-policy.ts:187-247 | A built-in policy created from distinct ids is accepted, and so are created local-command obligations. |
| `EvidencePolicy.AcceptedPoliciesCoverTheGoal` | packages/runtime/src/candidate-evidence-policy.ts:316-340 | Every accepted policy, of either kind, has exactly one obligation per required criterion, and keeps its checks. |
| `EvidencePolicy.PoliciesExactly` | packages/runtime/src/candidate-evidence-policy.ts:137-340 | A policy is accepted exactly with the built-in freeze check, with the built-in verification under another id or a local command bound to the frozen Candidate, and with as many obligations as required criteria, all different and each about one; every field is named. |
| `AcceptanceOutcomes.PolicyExactly` | packages/runtime/src/acceptance-policy.ts:195-390 | The policy of an authority is accepted exactly with two fitting checks and one fitting obligation for each required criterion, all created at one time. |
| `Acceptance.DominantIs` | packages/domain/src/acceptance.ts:343-357 | The reduction finds the first result of the greatest priority. |
| `Acceptance.AggregateForgetsOrder` | packages/domain/src/acceptance.ts:359-382 | The aggregate does not depend on the order of the rules. |
| `AcceptanceOutcomes.AggregateExactly` | packages/domain/src/acceptance.ts:343-382 | The decision on any results, without priorities: an error of the engine comes before a blocking failure, that before an open decision, that before a repairable failure, and that before a pass. |
| `AcceptanceOutcomes.ReasonExactly` | packages/domain/src/acceptance.ts:384-399 | The reason is that of the first result with the deciding outcome. |
| `Acceptance.CompiledIsConsistent` | packages/runtime/src/acceptance-policy.ts:195-390 | What compiling has checked: the Workflow, the Goal, the Candidate, the digests, the policy and the obligations of the input agree. |
| `Acceptance.SixRulesPass` | packages/runtime/src/acceptance-engine.ts:112-252 | On every compiled input the rules other than those on evidence and on issues pass. |
| `Acceptance.TwoRulesDecide` | packages/domain/src/acceptance.ts:359-399 | Then the aggregate and the dominant reason are those of the more severe of the two, and of the evidence rule when they are equally severe. |
| `Acceptance.DecisionIsTheMoreSevere` | packages/runtime/src/acceptance-engine.ts:71-110 | The decision on a compiled input is that for the more severe of the evidence outcome and the issue outcome. |
| `Acceptance.EvidencePassesExactly` | packages/runtime/src/acceptance-policy.ts:417-476 | The evidence rule passes exactly when every selected reference is current and eligible and every obligation is mapped to evidence of its own that passed. |
| `Acceptance.EvidenceOutcomeExactly` | packages/runtime/src/acceptance-policy.ts:417-476 | When it does not pass: with current evidence it is ENGINE_ERROR exactly if a runner error or a timeout is shown, else FAIL_REPAIRABLE exactly if a failure is, and FAIL_BLOCKED in all other cases. |
| `Acceptance.IssuesPassExactly` | packages/runtime/src/acceptance-policy.ts:392-415 | The issue rule passes exactly when no open blocking issue applies to the Candidate. |
| `Acceptance.IssueOutcomeExactly` | packages/runtime/src/acceptance-policy.ts:392-415 | The outcome is that of the most severe open blocking issue that applies to the Candidate. |
| `Acceptance.AcceptsExactly` | packages/runtime/src/acceptance-engine.ts:71-252 | A decision accepts exactly when both hold. |
| `Acceptance.CompiledAcceptsExactly` | packages/runtime/src/acceptance-policy.ts:195-476 | The same in terms of the authority that was compiled: compiling loses no issue. |
| `AcceptanceOutcomes.CompilesExactly` | packages/runtime/src/acceptance-policy.ts:195-390 | An input is compiled exactly from an authority of one final verification without retained facts or decisions, nothing of which is later than the input, with an acceptable policy, a verified Evidence Set, the exact bundle, and issues of the Goal with ids of their own. |
| `AcceptanceOutcomes.EvidenceTable` | packages/runtime/src/acceptance-policy.ts:417-476 | The evidence rule told by the current evidence: blocked unless all of it is there and current; then an error or a timeout of a runner, a failure, and a mere observation, in this order. |
| `AcceptanceOutcomes.DecisionExactly` | packages/runtime/src/acceptance-engine.ts:71-252 | The decision and its reason on any input with an exact bundle, as a table over the records: an error first, then the first thing that is wrong, then an open decision, then failed evidence, then a repairable issue. |
| `AcceptanceOutcomes.CompiledDecision` | packages/runtime/src/acceptance-engine.ts:71-252 | The same table for an authority that compiles, where only the evidence and the issues decide. |
| `AcceptanceOutcomes.AcceptedDirectly` | packages/runtime/src/acceptance-policy.ts:417-476 | It is accepted exactly when every reference is current, every obligation is mapped to evidence that is eligible, of its kind, for it and for the digest, and passed, and no open blocking issue applies. |
| `EvidenceSets.AssertCanonicalStrings` | packages/domain/src/evidence.ts:475-484 | The loop accepts exactly the strictly sorted lists without blank strings. |
| `EvidenceSets.AssertEvidenceSet` | packages/domain/src/evidence.ts:1048-1115 | The loops accept exactly the sets whose mappings are a sorted partition of the eligible references, and whose unresolved requirements are the obligations with an empty mapping. |
| `EvidenceSets.CheckMappings` | packages/domain/src/evidence.ts:1058-1081 | The loop over the mappings, with the set of the evidence mapped so far. |
| `EvidenceSets.CheckRefs` | packages/domain/src/evidence.ts:1083-1098 | The loop over the references: eligible and strictly sorted. |
| `EvidenceSets.SizesAddUp` | packages/domain/src/evidence.ts:1058-1114 | In an accepted set the sizes of the mappings add up to the number of references. |
| `EvidenceSets.PartitionsExactly` | packages/domain/src/evidence.ts:1048-1115 | A set is accepted exactly when its mappings, each after the one before, partition its references, and what is unresolved is what has no evidence. |
| `ContextCompiler.AcceptSorted` | packages/runtime/src/context-compiler.ts:127-142 | The loop over the sorted entries, which compares neighbours only, accepts exactly the entries with distinct keys that may be selected. |
| `ContextCompiler.AcceptDistinct` | packages/runtime/src/context-compiler.ts:151-163 | The loop over the sorted decisions accepts exactly those with distinct keys and distinct sources. |
| `ContextCompiler.AssertCanonicalOrder` | packages/domain/src/context.ts:327-340 | Comparing neighbours accepts exactly the strictly increasing lists. |
| `ContextCompiler.SortEntries` | packages/runtime/src/context-compiler.ts:123-143 | Canonical entries, or none. |
| `ContextCompiler.SortOmissions` | packages/runtime/src/context-compiler.ts:145-165 | Canonical omission decisions, or none. |
| `ContextCompiler.CheckManifest` | packages/domain/src/context.ts:692-757 | Accepts exactly the manifests whose entries are fit, strictly increasing and as bound, and whose omissions are fit, strictly increasing, of distinct sources and of none that the manifest lists. |
| `ContextCompiler.CheckEntries` | packages/domain/src/context.ts:692-735 | The part on the entries: exactly the Goal and the Candidate that the manifest binds, and criteria of the revision of the Goal only. |
| `ContextCompiler.DerivedBindingsFit` | packages/runtime/src/context-compiler.ts:194-256 | The entries that the compiler derives never fail the check of these bindings, whatever may be selected. |
| `ContextCompiler.ManifestExactly` | packages/domain/src/context.ts:692-757 | A manifest is valid exactly if its entries ascend, say what they are of under a fitting authority, bind the Goal and the Candidate once each and criteria of the revision, and its omissions ascend, say why, and are of other sources. |
| `ContextCompiler.CompileContext` | packages/runtime/src/context-compiler.ts:504-624 | Compiling, up to the checks that are left out. |
| `ContextCompiler.CompilationForgetsOrder` | packages/runtime/src/context-compiler.ts:112-256 | For any permutation of entries and omission decisions either both compilations throw or both return the same package and manifest. |
| `ContextCompiler.CompiledIsCanonical` | packages/domain/src/context.ts:692-757 | A compiled manifest is strictly increasing, has exactly the derived entries, and omits no source that was selected or that it lists; the package has exactly the given entries. |
| `ContextCompiler.CompilesExactly` | packages/runtime/src/context-compiler.ts:422-624 | A compilation succeeds exactly if the entries may be selected and differ in their keys, what is listed and what is omitted is given once each and is not the same, and the package and the manifest fit. |
| `ContextCompiler.SelectableExactly` | packages/domain/src/context.ts:265-325 | Which kinds may be selected under which authority, read by authority. |
| `ContextCompiler.KeysExactly` | packages/runtime/src/context-compiler.ts:102-110 | Two entries whose sources contain no separator have one key exactly when kind, source and revision agree. |
| `ContextCompiler.SeparatorsCollide` | packages/runtime/src/context-compiler.ts:102-106 | With a separator in a source two different entries can have one key. |
| `ContextCompiler.DerivedExactly` | packages/runtime/src/context-compiler.ts:194-256 | The manifest of a package lists the Goal, the criteria, the selected entries, the Candidate and the repair entries, field by field, and nothing else. |
| `Sorting.SortForgetsOrder` | packages/runtime/src/context-compiler.ts:124-126 | Sorting gives one result for all orders of elements with distinct keys. |

## Left out

- StrictJson.ParseBoundedJson: starts from code units; the decoding of UTF-8 is left out, and so are the texts and the offsets of error messages.
- CanonicalJson.CanonicalRoundTrip: the digits that the engine prints for a number that is not a safe integer (section 3.2.2.3 of RFC 8785) are abstract, under the hypothesis `Lawful`.
- JsonGraph.GraphDecoder.DecodeObject: results are up to member order, since members are a map; the order of properties of a JavaScript object is not modelled.
- Framing.FramedStdout.ReceiveStdout: the object has the fields of the framing only; that nothing is received after the exit is in `ClientModel.Receive`, and no host action comes in between the lines of one stream.
- Client.AppServerClient.RejectPending: the order in which promises are rejected is not modelled, nor is the code that their callers then run.
- Client.AppServerClient.ReceiveServerRequest: what a handler answers, and a failure after it, are separate events.
- Client.AppServerClient.ObserveCompletion: tracker objects are values with an identity token, so their aliasing is not captured.
- Client.AppServerClient.Shutdown: the signals to the process and the write chain are left out; a timeout is an event.
- InvocationObservers.InvocationObserver.RecordItem: the evaluation of items in protocol.ts is a function of the directive; diagnostics and the counters of launches, requests and interrupts are left out.
- WorkerAdapter.CodexWorkerAdapter.Launch: the checks on the request, the workspace, the instruction sources and the configuration are one refusal or one exception.
- Recovery.AssertRecord: the formats of the identifiers and digests are left out; a key that is present with no value is one that is absent.
- EvidenceSets.AssertEvidenceSet: the formats of the identifiers and digests are left out.
- Acceptance.CompiledIsConsistent: the verification of the Evidence Set in evidence-factory.ts is a boolean, the digests of facts, decisions and scenarios are left out, and there is no protected plan.
- ContextCompiler.CompileContext: the byte budget, the decoders, and the schema version, the pairs of digests and the formats in a manifest are host predicates; the entries of a repair context are given.
- Digests are opaque numbers, timestamps are integers, and identifiers of the lifecycle are opaque.
- Schemas and codecs: decoded values are well typed.
- Spawning and probing of processes, verification of executables, the store, the workflow driver, prompts, the CLI and the installers: plumbing, with no property that spans operations.
- Message texts, and the input and evidence references of rule results.
