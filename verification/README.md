# Verified model of the Komodo MCP server

Komodo MCP is a server that exposes Komodo Core to MCP clients. Most of it moves typed
fields around; this project models the parts that are algorithms or protocols, and proves
what they promise. Every module is plain Dafny; `dafny verify dfyconfig.toml` checks all of it.

| modules | part of the system |
|---|---|
| `Json`, `Strings`, `Sequences` | JSON values, options; splitting, joining, lower-casing and byte lengths; filtering and totals |
| `SchemaUnions`, `SchemaMeaning`, `SchemaAlike`, `SchemaPreserved`, `SchemaPaths`, `SchemaLaws`, `OutputSchema` | the rewriting of advertised JSON schemas, a semantics of JSON Schema, and the proof that the one respects the other |
| `Transfers`, `TransferInvariant`, `TransferOutcomes`, `TransferRegistry` | the credential transfer registry: one locked operation at a time, all runs, the exact reply to every operation, and the object with its download body |
| `Lifetime`, `LifetimeSafety`, `LifetimeOutcomes`, `Outcomes` | the lifetime of admitted requests as interleaved steps, what a tool call may submit, and what its caller is told |
| `EndpointUri`, `EndpointCredentials` | credentials in endpoint addresses of history documents: the projection, and what it does with every name and separator written out |
| `KeyCache`, `KeyCacheStaleness` | the signing-key cache with its refresh lock and throttle |
| `Diagnostics`, `DiagnosticJson` | cutting known credentials out of upstream diagnostics; diagnostics and file values as JSON |
| `Inventory`, `Paging`, `Searching` | selector resolution, search pages, operation pages, collection windows |
| `Framing`, `FramingRuns` | the newline framing of the local transport, and all its runs |
| `Operations` | operation filters and the query document they compile to |

Five patterns recur.

- *A transformation and a meaning.* `SchemaMeaning.Eval` is a semantics of JSON Schema
  2020-12 (sections 10 and 11 of JSON Schema Core, section 6.1.1 of JSON Schema Validation),
  including the evaluated properties and items that `unevaluatedProperties` and
  `unevaluatedItems` look at. Subschemas are handled by structural recursion and each
  reference spends one unit of fuel, so that the theorems hold for cyclic definitions too.
  `Operations.Evaluates` is the meaning of a query document in the same sense.
- *A step function and a history.* Runs are sequences of calls or labels; each state carries
  the log of what happened, and the invariant ties the state to that log. Theorems speak
  about the log of an arbitrary run. A step that is not enabled changes nothing, so a run is
  any sequence of labels at all.
- *An object and its specification.* `TransferRegistry.TransferFiles` and
  `Framing.BoundedStdio` are classes; each method's postcondition equates the new state with
  the specification function that the theorems are about.
- *An exact account.* Beside the safety theorems stand lemmas that say what each operation replies or each
  step does in every run, in both directions and with names, limits and lifetimes written out:
  `TransferOutcomes`, `LifetimeOutcomes`, `EndpointCredentials`, `Searching`, and parts of `KeyCache`,
  `Framing`, `Inventory` and `Diagnostics`.
- *A library contract.* What a library decides is a parameter with a stated law, for example
  `EndpointUri.Lawful` for path normalization and percent-decoding.

Two promises one might expect turn out to be false, and are settled in `KeyCache` and `KeyCacheStaleness`.

- *A key which the latest fetch received is never refused by the throttle.* A lookup can be cancelled
  after receiving the set and before storing it, and then the next lookup is refused
  (`ReceivedKeyCanBeRefused`). That is the only way: nobody is refused while the set is being stored
  (`NobodyIsRefusedWhileStoring`), in every run such a refusal comes after the cancellation of a lookup
  that was storing that set (`RefusalNeedsACancelledStore`), and with the lock free a lookup of a
  received key is refused exactly when the set was not stored and no earlier set serves the key
  (`ReceivedKeyIsRefusedUnlessStored`).
- *Every served key comes from a set younger than the cache lifetime.* A lookup may wait for the cache
  to be writable and then serves its own fetch (`OwnKeyCanBeStale`). A served key is stale exactly when
  the lookup that fetched it stored it, and at least the lifetime passed between the completion of the
  fetch and the storing (`ServedStaleExactlyWhenStoredLate`).

## Model

| member | source | states |
|---|---|---|
| `SchemaUnions.NormalizeTypeUnions` | crates/komodo-mcp/src/lib.rs:2573-2657 | the in-place traversal, over JSON objects whose members it visits in any order, ends with the normal form of its input |
| `SchemaUnions.PortableTypes` | crates/komodo-mcp/src/lib.rs:2578-2589 | the name collection succeeds exactly on nonempty arrays of distinct standard type names |
| `SchemaUnions.RewriteInPlace` | crates/komodo-mcp/src/lib.rs:2590-2609 | a legal type array moves to `anyOf`, or into one more `allOf` member when `anyOf` is taken; nothing else changes |
| `SchemaUnions.NormalizeIsComplete` | crates/komodo-mcp/src/lib.rs:2570-2657 | after one pass no schema position anywhere holds a legal type array |
| `SchemaPaths.NoLegalTypeArrayAnywhere` | crates/komodo-mcp/src/lib.rs:2570-2661 | at no path of the result does a schema have a `type` that is a nonempty array of distinct names, each the type of some instance |
| `SchemaPaths.TypesAreTheNames` | crates/komodo-mcp/src/lib.rs:2659-2661 | the standard names are exactly those that some instance has as a type |
| `SchemaPaths.LegalIsPortable` | crates/komodo-mcp/src/lib.rs:2578-2589 | what the name collection takes is exactly a nonempty array of distinct such names |
| `SchemaPaths.SchemasAreWhereTheKeywordsSay` | crates/komodo-mcp/src/lib.rs:2611-2656 | the keywords that hold schemas, and in which form |
| `SchemaLaws.ApplicatorsMean` | crates/komodo-mcp/src/lib.rs:2570-2572 | the semantics used gives `allOf`, `anyOf`, `oneOf`, `not`, `if`, `then`, `else` and `$ref` their standard meaning |
| `SchemaUnions.NormalizeFixesUnionFree` | crates/komodo-mcp/src/lib.rs:2570-2657 | a schema without legal type arrays is left exactly as it is |
| `SchemaUnions.NormalizeIsIdempotent` | crates/komodo-mcp/src/lib.rs:2570-2657 | a second pass is the identity |
| `SchemaUnions.RewriteWeighsLess` | crates/komodo-mcp/src/lib.rs:2590-2609 | the recursion terminates although a rewrite grows the tree: every subschema of the rewritten object weighs less than the object did |
| `SchemaPreserved.UnionMeaning` | crates/komodo-mcp/src/lib.rs:2592-2597 | a disjunction of single types accepts exactly what the type array accepts, and evaluates nothing |
| `SchemaPreserved.RewritePreserves` | crates/komodo-mcp/src/lib.rs:2590-2609 | rewriting one object, in either form, changes neither acceptance nor what counts as evaluated |
| `SchemaPreserved.NormalizePreserves` | crates/komodo-mcp/src/lib.rs:2570-2657 | for every schema, definitions, fuel and instance the rewritten schema has the outcome of the original, below every keyword and through every reference |
| `SchemaPreserved.NormalizedDocumentAcceptsTheSame` | crates/komodo-mcp/src/lib.rs:2560-2568 | a whole rewritten document, whose own definitions are rewritten with it, accepts the same instances |
| `SchemaPaths.NormalizedAtEveryPath` | crates/komodo-mcp/src/lib.rs:2611-2656 | at every path to a subschema, however deep, the result has the normal form of what was there |
| `SchemaPaths.DataIsUntouchedAnywhere` | crates/komodo-mcp/src/lib.rs:2611-2656 | at any depth `enum`, `const`, `default` and every other data position keep their values, and only `type`, `anyOf` and `allOf` come or go |
| `SchemaPreserved.DataIsUntouched` | crates/komodo-mcp/src/lib.rs:2611-2656 | the data members of one schema object keep their values |
| `OutputSchema.ToolOutputSchema` | crates/komodo-mcp/src/lib.rs:2534-2558 | the merged document is built exactly when shared definitions agree, and then has both branches and all definitions |
| `OutputSchema.EnlargingDefinitions` | crates/komodo-mcp/src/lib.rs:2544-2556 | a schema closed under its references has the same outcomes under any larger, agreeing set of definitions |
| `OutputSchema.DefinitionsAreNotRead` | crates/komodo-mcp/src/lib.rs:2536-2538 | taking the definitions out of a branch changes no outcome by itself |
| `OutputSchema.MergedAcceptsEither` | crates/komodo-mcp/src/lib.rs:2534-2558 | the merged schema accepts exactly the objects accepted by the success schema under its own definitions or by the failure schema under its own |
| `OutputSchema.NormalizeStaysClosed` | crates/komodo-mcp/src/lib.rs:2570-2657 | rewriting introduces no reference |
| `OutputSchema.AdvertisedSchemaAcceptsEither` | crates/komodo-mcp/src/lib.rs:2534-2568 | rewriting and merging together still accept exactly what one of the two original documents accepts |
| `TransferRegistry.TransferFiles.constructor` | crates/komodo-server/src/files.rs:88-101 | the registry starts empty with all byte permits available |
| `TransferRegistry.TransferFiles.Prune` | crates/komodo-server/src/files.rs:155-158 | exactly the expired entries go, and the permits of their bytes come back |
| `TransferRegistry.TransferFiles.Clear` | crates/komodo-server/src/files.rs:246-248 | shutdown drops every entry and returns its permits |
| `TransferRegistry.TransferFiles.TryAcquire` | crates/komodo-server/src/files.rs:212-225 | permits are taken all at once or not at all |
| `TransferRegistry.TransferFiles.AdmitsGrant` | crates/komodo-server/src/files.rs:227-237 | after pruning, the pre-check answers whether the token opens the file in that direction |
| `TransferRegistry.TransferFiles.AuthorizeUpload` | crates/komodo-server/src/files.rs:256-327 | refines the specification: refusals, the new entry and its grant |
| `TransferRegistry.TransferFiles.AuthorizeDownload` | crates/komodo-server/src/files.rs:329-348 | refines the specification: only the owner of stored bytes gets a grant, which replaces the previous one |
| `TransferRegistry.TransferFiles.PutBytes` | crates/komodo-server/src/files.rs:350-388 | refines the specification of an upload with all its refusals |
| `TransferRegistry.TransferFiles.GetBytes` | crates/komodo-server/src/files.rs:390-405 | refines the specification of a download; the permits travel with the bytes |
| `TransferRegistry.TransferFiles.DropBody` | crates/komodo-server/src/files.rs:103-115 | a download body that goes away returns its permits |
| `TransferRegistry.TransferFiles.Publish` | crates/komodo-server/src/files.rs:420-465 | refines the specification; a refusal after permits were taken returns them |
| `TransferRegistry.TransferFiles.Take` | crates/komodo-server/src/files.rs:467-485 | refines the specification; the permits come back as the bytes leave |
| `TransferRegistry.DownloadBody.PollFrame` | crates/komodo-server/src/files.rs:122-134 | each poll yields the next frame, and nothing once all was sent |
| `TransferRegistry.FramesRebuildBytes` | crates/komodo-server/src/files.rs:122-134 | the frames of a body are 16 KiB each but the last, which is not empty, and together are the stored bytes |
| `TransferInvariant.ApplyKeepsInv` | crates/komodo-server/src/files.rs:155-485 | capacity, coherence of bytes and grants, and agreement with the history survive every operation with any clock readings and any outcome |
| `TransferInvariant.RunInv` | crates/komodo-server/src/files.rs:155-485 | every run reaches only states with that invariant |
| `TransferInvariant.CapacityIsConserved` | crates/komodo-server/src/files.rs:34-35 | available permits, stored bytes and bytes in flight always add up to 16 MiB, with at most 64 entries |
| `TransferInvariant.DeliveredAtMostOnce` | crates/komodo-server/src/files.rs:390-485 | the bytes of an identifier leave at most once, by a take or a download, for each time it was created |
| `TransferInvariant.NeverDeliveredTwice` | crates/komodo-server/src/files.rs:390-485 | when no identifier is drawn twice, no file is ever delivered twice |
| `TransferInvariant.DeliveriesAreJustified` | crates/komodo-server/src/files.rs:350-485 | what is delivered is exactly what was published or uploaded, to the authorizing owner or the holder of the latest grant of that direction, within five minutes of creation and one minute of the grant |
| `TransferInvariant.UploadsMatched` | crates/komodo-server/src/files.rs:367-380 | the bytes of a completed upload match the declared size and digest |
| `TransferInvariant.StoredBytesStay` | crates/komodo-server/src/files.rs:350-388 | from its upload or publication until its identifier is drawn again, a file has the same bytes, and a delivery hands out those |
| `TransferInvariant.AdmissionIsExact` | crates/komodo-server/src/files.rs:227-237 | a token is let through exactly when, at those instants, a download would deliver or a fitting upload would store |
| `TransferOutcomes.HoldsExactlyTheKept` | crates/komodo-server/src/files.rs:155-485 | in every run the registry holds exactly the files that were created and since then neither swept when over, nor dropped by shutdown, nor delivered |
| `TransferOutcomes.DownloadGrantsExactly` | crates/komodo-server/src/files.rs:329-348 | a download grant goes exactly to the owner of the latest creation of a current file with bytes, and is recorded as issued |
| `TransferOutcomes.UploadGrantsExactly` | crates/komodo-server/src/files.rs:256-327 | an upload is authorized exactly within the declared bounds, with fewer than 64 files and a fresh identifier |
| `TransferOutcomes.UploadsStoreExactly` | crates/komodo-server/src/files.rs:350-388 | bytes are stored exactly when the latest, unused upload token opens a current file that waits for them and they fit declaration, limit and capacity |
| `TransferOutcomes.DownloadsDeliverExactly` | crates/komodo-server/src/files.rs:390-405 | a download delivers exactly for the latest download token of a current file, and then the bytes recorded for it |
| `TransferOutcomes.PublishesExactly` | crates/komodo-server/src/files.rs:420-465 | bytes are published exactly within limit, capacity and room, under a fresh identifier |
| `TransferOutcomes.TakesExactly` | crates/komodo-server/src/files.rs:467-485 | a take delivers exactly to the owner of a current, completed upload, and then the bytes recorded for it |
| `LifetimeSafety.StepKeepsInv` | crates/komodo-server/src/lifecycle.rs:51-113 | every interleaved step of transport, handler, clock, shutdown and cancellation, abandoned reads included, keeps permits conserved and each call where its history says |
| `LifetimeSafety.RunInv` | crates/komodo-server/src/lifecycle.rs:51-113 | the same for every run |
| `LifetimeSafety.LiveWorkNeverExceedsTheLimit` | crates/komodo-server/src/lifecycle.rs:64-113 | free permits and requests with a live half add up to the limit, so work outliving its HTTP response still counts |
| `LifetimeSafety.NoLateOrRepeatedWrite` | crates/komodo-mcp/src/lib.rs:1468-1484 | one tool call submits at most one write, and only while the transport half lives, the deadline has not passed and nothing is cancelled |
| `LifetimeSafety.ReadsAreSentAtMostTwice` | crates/komodo-api/src/lib.rs:800-817 | a read is sent once, and once more at most |
| `LifetimeSafety.AnsweredOnce` | crates/komodo-mcp/src/lib.rs:2410-2431 | nothing is sent or answered for a call after its answer |
| `LifetimeSafety.SubmittedWritesAreNeverFalselyCertain` | crates/komodo-mcp/src/lib.rs:2410-2451 | in every run an answer after a submitted write reports a conclusive reply or marks the outcome unknown and a retry unsafe |
| `LifetimeOutcomes.AnswersAreTruthful` | crates/komodo-mcp/src/lib.rs:2410-2451 | in every run an answer is a success exactly when Core answered the write with one or the handler concluded with one; a conclusion is passed on as it is |
| `LifetimeOutcomes.WriteResult` | crates/komodo-api/src/lib.rs:819-893 | a write is answered as a success exactly for a decoded status from 200 to 299, and otherwise with its error |
| `LifetimeOutcomes.SubmitsExactlyInTime` | crates/komodo-mcp/src/lib.rs:1468-1484 | in every reachable state a write is sent exactly before the deadline, without shutdown, end of the transport or cancellation, and otherwise the end of the lifetime is answered |
| `LifetimeOutcomes.EntersExactlyInTime` | crates/komodo-mcp/src/lib.rs:2417-2419 | a handler is entered exactly in time |
| `LifetimeOutcomes.PollsExactlyInTime` | crates/komodo-mcp/src/lib.rs:2419-2424 | a handler is polled exactly in time and while its call is not cancelled |
| `LifetimeOutcomes.ReadsAreSent` | crates/komodo-api/src/lib.rs:800-809 | a read that a handler begins is sent |
| `LifetimeOutcomes.ReadsAreRepeatedExactlyOnce` | crates/komodo-api/src/lib.rs:807-817 | a read is sent once more exactly after a first failure to respond or a status from 500 to 599 |
| `LifetimeOutcomes.ConclusionsAreAnswers` | crates/komodo-mcp/src/lib.rs:2450-2450 | what a handler concludes is the answer |
| `LifetimeOutcomes.AbandonedReadsAreAnswers` | crates/komodo-api/src/inventory.rs:226-232 | so is what it makes of a read it abandons |
| `LifetimeOutcomes.WriteRepliesAreAnswers` | crates/komodo-mcp/src/lib.rs:2147-2152 | a reply to a write is answered |
| `LifetimeOutcomes.AdmitsExactlyBelowTheLimit` | crates/komodo-server/src/lifecycle.rs:64-86 | a request is admitted exactly without shutdown and with fewer live requests than the limit |
| `LifetimeOutcomes.DeadlineIsFixed` | crates/komodo-server/src/lifecycle.rs:69-69 | the deadline of a request stays the timeout after its admission |
| `LifetimeOutcomes.TransportEndsForGood` | crates/komodo-server/src/lifecycle.rs:79-113 | the end of the transport half ends the lifetime |
| `LifetimeOutcomes.HandlerEndsForGood` | crates/komodo-server/src/lifecycle.rs:159-182 | the end of the handler context gives its half of the permit up |
| `LifetimeOutcomes.HalvesMoveAsTold` | crates/komodo-server/src/lifecycle.rs:64-113 | the other steps of the two halves |
| `Outcomes.UnknownUnlessConclusive` | crates/komodo-api/src/lib.rs:107-112 | the error of a reply counts as uncertain exactly when the reply was neither a decoded success nor a 401, 403 or 404 |
| `Outcomes.ApiErrorData` | crates/komodo-mcp/src/errors.rs:43-68 | the error data filled step by step is the projection with the credential file or the reason it is missing |
| `Outcomes.MutationErrorData` | crates/komodo-mcp/src/errors.rs:70-94 | an uncertain mutation error has its data overwritten with the reconciliation facts |
| `DiagnosticJson.DiagnosticRoundTrip` | crates/komodo-api/src/errors.rs:10-22 | a written diagnostic, whose texts carry no tag, is read back as it was |
| `DiagnosticJson.FileRoundTrip` | crates/komodo-mcp/src/files.rs:8-29 | a written file value, with its optional members, is read back as it was |
| `Outcomes.UpstreamRoundTrip` | crates/komodo-mcp/src/errors.rs:27-40 | reading upstream data into its typed form, diagnostic and file included, and writing it again keeps every member |
| `Outcomes.ReconcileRoundTrip` | crates/komodo-mcp/src/errors.rs:9-25 | the same for the reconciliation data around it |
| `Outcomes.DataSurvives` | crates/komodo-mcp/src/lib.rs:2432-2451 | a mutation error reaches the caller with its data unchanged, as an error or as a structured result |
| `Outcomes.NoFalseCertainty` | crates/komodo-mcp/src/errors.rs:70-94 | the caller is told that the outcome is unknown exactly when the reply was inconclusive |
| `Outcomes.CredentialErrorsAreStructured` | crates/komodo-mcp/src/lib.rs:2432-2448 | an error becomes a structured result exactly when its response holds a credential, and is announced as unknown exactly when it is |
| `Outcomes.CallerReads` | crates/komodo-mcp/src/errors.rs:43-94 | what a caller reads in the data of an upstream error, member by member |
| `Outcomes.EndedMarksUnknown` | crates/komodo-mcp/src/execution.rs:45-55 | the error of an ended lifetime marks the outcome unknown and a retry unsafe |
| `EndpointUri.CutIsWellCut` | crates/komodo-mcp/src/history.rs:283-320 | no component of a split address contains the separators that would split it further |
| `EndpointCredentials.CutExactly` | crates/komodo-mcp/src/history.rs:286-320 | an address is cut into components exactly when it consists of them with scheme, slashes and separators in place, and there is only one way |
| `EndpointUri.PrintRecut` | crates/komodo-mcp/src/history.rs:326-337 | printing well-cut components and splitting again gives the same components |
| `EndpointUri.OutputIsRecut` | crates/komodo-mcp/src/history.rs:283-338 | the output splits into the projected components: scheme, fragment and every frame stay in place |
| `EndpointUri.ProjectionIsIdempotent` | crates/komodo-mcp/src/history.rs:283-388 | projecting an output returns it unchanged |
| `EndpointUri.AccountOfOutput` | crates/komodo-mcp/src/history.rs:311-316 | user name and host and port are kept, and a nonempty password is replaced by the marker |
| `EndpointUri.PairsOfOutput` | crates/komodo-mcp/src/history.rs:365-388 | query pairs correspond one to one; credential pairs keep their name, all others are kept verbatim |
| `EndpointUri.PathOfOutput` | crates/komodo-mcp/src/history.rs:340-363 | the path is kept verbatim, or is its normal form with exactly the token segment replaced |
| `EndpointUri.KeptUnlessCredential` | crates/komodo-mcp/src/history.rs:321-325 | the original is kept exactly when no recognized component holds a credential |
| `EndpointCredentials.ProjectedExactlyWithCredentials` | crates/komodo-mcp/src/history.rs:321-325 | an address is projected exactly when it can be cut and has a nonempty password, a token or a credential parameter |
| `EndpointCredentials.PasswordsAreReplaced` | crates/komodo-mcp/src/history.rs:312-316 | the text between the first colon and the last at sign is replaced when it is not empty |
| `EndpointCredentials.TokensAreReplaced` | crates/komodo-mcp/src/history.rs:340-363 | the segment three after the first "services" (Slack) or two after the first "webhooks" (Discord) is replaced and all others stay |
| `EndpointCredentials.ParametersAreReplaced` | crates/komodo-mcp/src/history.rs:365-388 | values of Pushover parameters called "token" or "user" are replaced, and all other pairs stay |
| `EndpointUri.PlainLibraryIsLawful` | crates/komodo-mcp/src/history.rs:340-363 | the contract of path normalization and decoding can be met |
| `KeyCache.StepKeepsInv` | crates/komodo-server/src/auth.rs:267-299 | every step of interleaved lookups keeps the cache, the throttle and the lock consistent |
| `KeyCache.FetchesAreSpaced` | crates/komodo-server/src/auth.rs:278-283 | fetches start at least the smaller of 30 s and the lifetime apart, under any concurrency, failure and cancellation |
| `KeyCache.ServedKeysAreFresh` | crates/komodo-server/src/auth.rs:284-299 | a served key is in the set it came from, which is younger than the lifetime unless the lookup fetched it itself |
| `KeyCacheStaleness.ServedStaleExactlyWhenStoredLate` | crates/komodo-server/src/auth.rs:283-289 | in every run a served key is stale exactly when its lookup fetched it and at least the lifetime passed before it was stored |
| `KeyCacheStaleness.OwnKeyIsStaleExactlyWhenStoredLate` | crates/komodo-server/src/auth.rs:283-289 | a lookup that has completed its fetch and is left to store it serves that key, stale exactly when the time in between reaches the lifetime |
| `KeyCache.ThrottleNeverHidesAStoredKey` | crates/komodo-server/src/auth.rs:275-280 | a refused lookup's key is in no set that the latest fetch stored |
| `KeyCache.LookupOutcome` | crates/komodo-server/src/auth.rs:267-283 | in every reachable state an undisturbed lookup is served exactly from an unexpired cached set with its key, refused exactly within 30 s and the lifetime of the latest start, and otherwise fetches |
| `KeyCache.HitsNeedNoLock` | crates/komodo-server/src/auth.rs:268-270 | a hit is served at once whoever holds the lock, and a miss waits |
| `KeyCache.WaitersLookAgain` | crates/komodo-server/src/auth.rs:271-274 | the lock goes to one lookup at a time, which looks again before it fetches |
| `KeyCache.FetchesEnd` | crates/komodo-server/src/auth.rs:283-289 | however a fetch ends the lock is free; a completed one replaces the cache, a failed or cancelled one leaves cache and throttle |
| `KeyCache.StoredKeyIsServed` | crates/komodo-server/src/auth.rs:283-288 | a key the latest fetch stored is served for as long as the throttle could refuse it |
| `KeyCache.ReceivedKeyIsRefusedUnlessStored` | crates/komodo-server/src/auth.rs:267-289 | with the lock free and the interval not over, a lookup of a received key is refused exactly when the set was not stored and no earlier set serves the key |
| `KeyCache.NobodyIsRefusedWhileStoring` | crates/komodo-server/src/auth.rs:271-289 | while a lookup stores its set no step refuses anybody |
| `KeyCache.RefusalNeedsACancelledStore` | crates/komodo-server/src/auth.rs:278-289 | in every run a received key is refused only after a lookup storing that set was cancelled |
| `KeyCacheStaleness.ReceivedKeyCanBeRefused` | crates/komodo-server/src/auth.rs:284-289 | a run in which a storing lookup is cancelled and the next lookup of its key is refused |
| `KeyCacheStaleness.OwnKeyCanBeStale` | crates/komodo-server/src/auth.rs:284-289 | a run in which a lookup serves its own fetch after the lifetime |
| `Diagnostics.FoundIsLeftmostLongest` | crates/komodo-api/src/errors.rs:88-91 | the matcher finds the leftmost credential, and the longest one there |
| `Diagnostics.GapsRebuildText` | crates/komodo-api/src/errors.rs:158-171 | interleaving the kept text with the removed credentials rebuilds the original |
| `Diagnostics.GapsHoldNoCredential` | crates/komodo-api/src/errors.rs:158-181 | no kept piece contains any credential, not even one overlapping a removed one |
| `Diagnostics.ProjectText` | crates/komodo-api/src/errors.rs:146-182 | a text is complete exactly when it holds no credential, its segments are the nonempty gaps, and the bound flag is set exactly for more than 256 of them |
| `Diagnostics.FromResponse` | crates/komodo-api/src/errors.rs:58-125 | in terms of the configured credentials: the original is kept exactly when one of them occurs in an inspected text, nothing shown inline holds one, and the inline diagnostic is dropped exactly when some text falls into more than 256 pieces |
| `Diagnostics.InlineTextHoldsNoCredential` | crates/komodo-api/src/errors.rs:104-125 | whatever is shown inline holds no credential and together with the removed ones is the original text |
| `Inventory.CollectExact` | crates/komodo-api/src/inventory.rs:280-290 | a page contributes its exact names, up to the second in all |
| `Inventory.Resolve` | crates/komodo-api/src/inventory.rs:236-301 | the branch taken and what it returns, for identifiers, old releases, pages and the timeout |
| `Inventory.SelectsOnlyTheUnambiguous` | crates/komodo-mcp/src/lib.rs:2852-2874 | an exact id wins; otherwise a resource is selected exactly when it is the only one with that name but for the case of letters; none and several are told apart, and so is an invalid selector |
| `Inventory.UndecidedExactly` | crates/komodo-api/src/inventory.rs:241-300 | the pages leave a name open exactly when 1600 items are listed without two of that name among the first 1600 |
| `Inventory.SearchedAgrees` | crates/komodo-mcp/src/lib.rs:2852-2874 | selecting among the searched names is selecting among the whole inventory |
| `Inventory.ResolveAndSelect` | crates/komodo-api/src/inventory.rs:220-301 | whenever bounded resolution answers, with the items its branch returns, the selection from them equals that over the whole inventory; it is too broad exactly on a timeout or when 16 full pages do not settle the name, and invalid exactly for an invalid selector in time |
| `Paging.Retain` | crates/komodo-mcp/src/lib.rs:2701-2702 | filtering keeps exactly the matching resources in order |
| `Paging.Search` | crates/komodo-mcp/src/lib.rs:2696-2742 | a page is cut from the ordered matches, and invalid parameters are rejected |
| `Searching.SearchesTheFound` | crates/komodo-mcp/src/lib.rs:2838-2843 | a search is over exactly the items in whose name or id the words of the query occur, ignoring the case of letters and the blanks around it |
| `Searching.SearchesInOrder` | crates/komodo-mcp/src/lib.rs:2703-2708 | it goes through them by name, ignoring the case of letters, and by id under one name |
| `Paging.SortedIsOrdered` | crates/komodo-mcp/src/lib.rs:2703-2708 | sorting orders by lower-case name and id and keeps every element |
| `Paging.ArrangedIsCanonical` | crates/komodo-mcp/src/lib.rs:2702-2708 | the searched sequence does not depend on the order in which upstream lists the inventory |
| `Paging.AdvertisedOffsetsAreAccepted` | crates/komodo-mcp/src/lib.rs:2718-2741 | no search offset that was advertised is rejected later |
| `Paging.SearchCoversOnce` | crates/komodo-mcp/src/lib.rs:2696-2731 | following offsets with any positive limits delivers the ordered matches once each, in at most one request per match and one more, and stops early only with the truncation mark, past 10000 |
| `Paging.OperationsCoverOnce` | crates/komodo-mcp/src/lib.rs:2010-2063 | following offsets and then pages delivers every match of every page once and in order, or says truncated; every request on the way is accepted |
| `Paging.CollectionCoversOnce` | crates/komodo-mcp/src/lib.rs:1121-1136 | following a collection's offsets delivers every record once |
| `Paging.CollectionPagesAreExact` | crates/komodo-mcp/src/lib.rs:1121-1136 | a page has the records from its offset to its limit, and says how many, of how many, whether not all, and where to go on |
| `Paging.CollectionOffsetsAccepted` | crates/komodo-mcp/src/lib.rs:571-580 | all advertised collection offsets are accepted exactly when there are at most 2097153 records |
| `Paging.ResponseLimitSuffices` | crates/komodo-mcp/src/lib.rs:45-45 | a response within 2 MiB never holds more records than the offsets reach |
| `Framing.BoundedStdio.ReadUntil` | crates/komodo-server/src/stdio.rs:88-92 | a buffer at a time, reading takes what has arrived up to the first newline within the limit, and leaves the rest |
| `Framing.BoundedStdio.Receive` | crates/komodo-server/src/stdio.rs:84-114 | a poll has the specified effect and answer |
| `Framing.PollReflects` | crates/komodo-server/src/stdio.rs:84-114 | a poll does what reading its octets one by one does, and keeps the read limit from underflowing |
| `Framing.BoundedStdio.Cancel` | crates/komodo-server/src/stdio.rs:19-23 | dropping a waiting call keeps the partial line, and the next call's limit does not underflow |
| `Framing.BoundedStdio.Written` | crates/komodo-server/src/stdio.rs:60-81 | a flushed response releases its request |
| `Framing.BoundedStdio.Close` | crates/komodo-server/src/stdio.rs:116-123 | closing ends reception |
| `Framing.ReadsAreFrames` | crates/komodo-server/src/stdio.rs:84-114 | reading octet by octet is splitting at newlines and decoding frame by frame up to the first bad one |
| `Framing.FramesAreDelivered` | crates/komodo-server/src/stdio.rs:93-113 | a frame of at most 65536 octets is delivered when it decodes, unless it is a request that waits already or finds 32 waiting; otherwise the transport closes there |
| `Framing.UnfinishedFramesWait` | crates/komodo-server/src/stdio.rs:88-98 | octets without an end wait up to the limit and close the transport beyond it |
| `Framing.PendingUntilFlushed` | crates/komodo-server/src/stdio.rs:74-108 | a request is pending exactly from its delivery until its response is flushed; pending identifiers are distinct and at most 32 |
| `FramingRuns.Serve` | crates/komodo-server/src/stdio.rs:52-123 | under any events the transport ends in the state of the run and has delivered what the run delivers |
| `FramingRuns.RunReflects` | crates/komodo-server/src/stdio.rs:52-123 | in every run deliveries and final state are those of the octets read one by one, which are the arrived octets in order up to those not yet read |
| `FramingRuns.InputsAreCaused` | crates/komodo-server/src/stdio.rs:52-123 | exactly the responses sent are flushed, in order, and reading stops only on a close or the end of input |
| `FramingRuns.RequestsArePendingUntilSent` | crates/komodo-server/src/stdio.rs:60-108 | in every run a request is pending exactly from its delivery until its response has been sent; at most 32 distinct ones are |
| `FramingRuns.PolledRunDeliversFrames` | crates/komodo-server/src/stdio.rs:84-114 | without responses or a close in between, and with a poll for each octet at the end, a run has delivered exactly the frames of the octets that arrived |
| `FramingRuns.ChunkingMakesNoDifference` | crates/komodo-server/src/stdio.rs:84-114 | two such runs with the same input deliver the same, however it is chunked and however calls are polled and cancelled |
| `Operations.UpstreamQuery` | crates/komodo-api/src/operations.rs:39-73 | the document built field by field accepts exactly what the filter matches, and is absent exactly for the empty filter |
| `Operations.FilterCompiles` | crates/komodo-api/src/operations.rs:38-95 | evaluating the emitted document equals the local filter for every filter and operation, a missing target included |
| `Operations.LocalFilterIsUpstreamFilter` | crates/komodo-api/src/lib.rs:696-706 | filtering a list locally leaves what the query selects from it |
| `Operations.FilterSelects` | crates/komodo-mcp/src/lib.rs:841-884 | an accepted filter selects exactly the operations of its target, name and window whose reported outcome is the one asked for |
| `Operations.OutcomeSelects` | crates/komodo-mcp/src/lib.rs:3202-3210 | an outcome filter matches exactly the operations reported with that outcome |
| `Operations.SuccessIsKnownWhenComplete` | crates/komodo-mcp/src/lib.rs:3202-3210 | success is reported exactly for completed operations |
| `Operations.FiltersAreAcceptedExactly` | crates/komodo-mcp/src/lib.rs:841-859 | a filter is accepted exactly with valid names, times that are not negative, and room for a start between them |

## Left out

- Resolving `$ref` values other than `#` and `#/$defs/name`: their acceptance is an arbitrary predicate, `#` is excluded from the merging theorem because merging changes the root, and escapes in JSON pointers are not interpreted.
- Schemas that carry `allOf` beside `anyOf` and a type array without `allOf` being an array: the source panics there, so a rewritable schema is required.
- The order in which `normalize_type_unions` visits keywords: the method picks them in any order, since JSON objects here have no order.
- Object aliasing in the schema rewriting: values are replaced, not updated through references.
- SHA-256 is an arbitrary function, identifiers and tokens are drawn by the caller and may be absent when entropy fails, and the name and media-type limits of an upload are one flag.
- One clock reading serves pruning and one serves the grant check, as in the source; expiry of a file is measured at the pruning reading, so time passing between the two is not counted against the file.
- The HTTP handlers around the registry, the descriptor URL and the bearer header.
- The request lifetime and the key cache are state machines on values rather than objects, because their steps interleave; tokens, permits and drop guards are their fields.
- The wording of the error for an ended lifetime is cut to its first clause, and the numeric code of structured failures, which is fixed, is left out.
- `admit` reads the clock and takes its permit at one instant in the lifetime model, and the HTTP answers 408 and 503 are the end of the transport half, not results of a tool call.
- Scheduling, sockets and retries inside HTTP libraries: any order of steps is a run.
- The claim window, the bearer check and token decoding of `auth.rs`; fetching and parsing of key sets beyond their success or failure.
- The whole-URL parse in front of `project_uri_components`, and the TOML editing around it.
- The internals of percent-decoding, form-decoding and path normalization: `Lawful` states what is used of them.
- The search algorithm of the multi-pattern matcher: the model defines the leftmost-longest match it is specified to find.
- Inventories that change between the pages of one resolution or traversal: pages are cut from one consistent listing. Failures of single reads, and pages longer than requested, end the resolution with their own error and select nothing.
- Write timeouts and failed writes of the local transport: the response was not flushed, and nothing changes.
- Operators of query documents other than `$gte`, `$lt` and `$nin`, and the array traversal of dotted paths.
- Views, tool registration, configuration, logging, health checks and scripts: field copying and presentation.
