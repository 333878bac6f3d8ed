# Proofs about the API project service

The service keeps OpenAPI projects as rows: one endpoint per path and method, each with an operation (a JSON value), a
status and provenance metadata under `x-app-metadata`. This project models its import/export engine and its endpoint
editing protocol, together with the lock service, mock routing, username allocation, mention scanning, secret storage,
sign-in tokens and the project access list, and proves what holds of them for every input, every run and every
interleaving.

**Import, apply, print.** `SpecReconciliation` is the diff engine. JSON objects have ordered keys, and operations of the
incoming document are heap objects (`JsonRef`), because the engine writes metadata into the objects it was given and
nothing stops one object from standing at two places of the document. `Projects` runs the diff inside the import
transaction (delete, create, update, rename the project), `ImportSteps` says what becomes of each row, `ImportTheorems`
that the import reaches the document, changes no more than it must and settles after one round, and `ImportProvenance`
what happens to the record of who created an endpoint. `OpenApiSpecBuilder` prints the rows as a document again.

**Editing endpoints.** `EndpointsService` holds the database statements; `EndpointProtocol` lets any number of
requests interleave, with a step boundary at every await; `EndpointRuns` proves what every run keeps: no lost update and
an unbroken chain of reported statuses; `EndpointOrigins` proves that who created an endpoint is recorded for good.

**Locks.** `Locking` holds the lease table, the gateway that broadcasts its changes, and the guard of the save routes;
`LockRuns` proves over all runs that the table behaves like a map of live locks, that a lease excludes others, and that
subscribers see the truth.

**The rest.** `MockServer` (which operation answers a request), `Usernames`, `Mentions`, `Encryption` and `Secrets`,
`Sessions` (token versions; its `AccountService` takes the steps of the system the theorems are about), `ProjectAccess`.

Classes stand for the services that update state in place; their methods are proved against functions of the old state,
and the lemmas are about those functions. Clocks, random values, new ids and the order in which the database lists rows
are parameters, so every theorem holds for every choice of them.

## Where the code does less than its documentation or its design suggests

- A template can win over a literal path: `/{x}` over `/~`, because `~` sorts after `{` (`MockServer.TildeIsOvertaken`),
  and `/A{x}` over `/ab`, because matching ignores case and sorting does not (`MockServer.UpperCaseTemplateWins`).
  `MockServer.LiteralAnswersIff` and, from the rows, `MockServer.LiteralRowAnswers` give the exact condition, whatever
  the case of paths and parameter names: the first difference between template and request is a character of the
  template, no later than its first brace, that sorts below the request's.
- The change test looks at nothing of an operation that is not an object, so an array replacing a different array goes
  unnoticed (`ImportTheorems.ArraysAreBlurred`). Import followed by print returns the imported operations if and only if
  that never happens (`ImportTheorems.ImportThenBuild`). Linting, which runs before the import and is not modelled,
  demands a summary of every operation (.spectral.yaml:33-48) and so keeps arrays out; with objects only, every operation
  prints as imported (`ImportTheorems.ObjectsPrintAsImported`).
- Importing a project's own printed document deletes the rows whose operation is not an object or array, or carries a
  top-level `$ref`; it changes nothing otherwise (`ImportTheorems.ImportingOwnBuild`). `ImportTheorems.RefRowIsDeleted`
  is such a row, with a `$ref` that is not a reference. Resolving references, which comes first, replaces those that are,
  and linting, which comes next and extends a ruleset for OpenAPI documents (.spectral.yaml:1-3), is there to refuse the
  rest; neither is modelled.
- A document that gives an existing path two method keys equal up to case with different contents never settles: it is
  imported, and every later import of it rewrites the row again (`ImportTheorems.TwinsNeverSettle`).
  `ImportTheorems.ImportSettlesIff` says exactly when a document settles; one without such keys does
  (`ImportTheorems.ImportSettles`).
- An operation object shared between an existing and a new path loses the record of its creator
  (`ImportProvenance.SharedObjectLosesOrigin`); `ImportProvenance.ImportKeepsOriginIff` gives the exact condition.
- `update` tests the version the client quotes, not the version it read. Its `before` snapshot is the row it overwrote if
  and only if the quoted version had been issued by the time of the read
  (`EndpointRuns.UpdateOverwritesWhatItReadIff`). A client that quotes a version not yet issued can break the chain
  of statuses (`EndpointRuns.FutureQuoteBreaksTheChain`; `EndpointRuns.StatusChainIff` says exactly when). It can also
  change the record of the creator, if it had read the row before that record was well-formed
  (`EndpointOrigins.StaleSaveChangesOrigin`): the record is safe if and only if no update under way that can still commit
  would write another one (`EndpointOrigins.OriginIsSettledIff`). Clients that quote versions they were shown do neither
  harm (`EndpointRuns.StatusChainIsUnbroken`, `EndpointOrigins.TimelyRunKeepsOrigin`).
- `setPassword` checks that there is no password and then writes, so of two requests at once the second replaces the
  first one's password (`Sessions.BothSetPassword`); `Sessions.SetPasswordReplacesNoneIff` says exactly when.
- The empty text does not survive the secret envelope (`Encryption.EnvelopeRoundTrip`), and a secret updated with an
  empty value is reported with that value although the old one is kept (`Secrets.SecretsService.Update`). Request
  validation keeps both from happening.

## Model

| member | source | states |
|---|---|---|
| Json.StringifyIsPrefixFree | src/projects/spec-reconciliation/spec-reconciliation.service.ts:64 | no printed JSON value, followed by a delimiter, begins another one; so the printed text determines the value and what follows it |
| Json.StringifyIsInjective | src/projects/spec-reconciliation/spec-reconciliation.service.ts:64 | comparing two operations by their printed text compares the values themselves, key order included |
| HttpMethods.EndpointKeyIsInjective | src/projects/spec-reconciliation/spec-reconciliation.service.ts:102-104 | two `method:path` keys are equal exactly when the lower-case methods and the paths are |
| HttpMethods.LowerCharMeaning | src/projects/spec-reconciliation/spec-reconciliation.service.ts:103 | lower-casing turns each capital letter into its small one and leaves the rest |
| Json.WithoutMeaning | src/projects/spec-reconciliation/spec-reconciliation.service.ts:114-115 | taking one key out of a record leaves the other entries in their order |
| AppMetadata.ContentMeaning | src/projects/spec-reconciliation/spec-reconciliation.service.ts:110-116 | wherever metadata stands in an operation, the change test sees exactly the other entries in their order, and nothing of a non-object |
| AppMetadata.GuardNeedsEach | src/projects/spec-reconciliation/spec-reconciliation.types.ts:18-33 | well-formed metadata stays so exactly while each of its four fields is there and is a string |
| AppMetadata.WrittenMetadataIsInvisible | src/projects/spec-reconciliation/spec-reconciliation.service.ts:110-116 | writing metadata changes neither what the change test sees nor the author's content, and on an object it is read back |
| AppMetadata.MadeMetadataOrigin | src/projects/spec-reconciliation/spec-reconciliation.types.ts:18-33 | fresh metadata passes the well-formedness test exactly when both creation fields are strings, and then records them |
| AppMetadata.UpdatedMetadataOrigin | src/projects/spec-reconciliation/spec-reconciliation.service.ts:118-145 | an update by import keeps creator and creation date of well-formed metadata and replaces malformed metadata by `unknown` and the row's date; the result is always well-formed |
| AppMetadata.EditorIsRecorded | src/projects/spec-reconciliation/spec-reconciliation.service.ts:136-140 | an import or an edit records its author and time as last editor; an import leaves every other metadata field, known or not, as it was |
| AppMetadata.SavedMetadataOrigin | src/projects/endpoints/endpoints.service.ts:205-219 | an edit keeps creator and creation date of well-formed metadata |
| AppMetadata.SavedMetadataCreation | src/projects/endpoints/endpoints.service.ts:205-214 | an edit takes over whatever creation fields it finds, and those of the row where there are none or null |
| Endpoints.PutRowKeepsWellFormed | prisma/schema.prisma:116-120 | writing one row whose route nobody else has keeps methods valid and routes unique |
| Endpoints.CreateManyMeaning | prisma/schema.prisma:120 | a bulk insert succeeds if and only if no route is taken in the table or twice in the batch, and then adds exactly the given rows |
| Endpoints.ViewAfterPut | prisma/schema.prisma:116-120 | seen by route, writing a row puts it under its route, frees the route it had and changes no other project |
| Endpoints.ViewAfterRemove | prisma/schema.prisma:120 | seen by route, deleting a row frees its route and changes nothing else |
| SpecReconciliation.OperableMeaning | src/projects/spec-reconciliation/spec-reconciliation.service.ts:50-52 | operations are arrays and objects without a top-level `$ref`; primitives and null are not |
| SpecReconciliation.AcceptedMeaning | src/projects/spec-reconciliation/spec-reconciliation.service.ts:43-52 | an entry is accepted if and only if its key is a valid method in some case and its value an array, or an object without `$ref` |
| SpecReconciliation.IndexByKey | src/projects/spec-reconciliation/spec-reconciliation.service.ts:29-32 | the loop builds the index of rows by key and its insertion order |
| SpecReconciliation.Visit | src/projects/spec-reconciliation/spec-reconciliation.service.ts:42-91 | one entry of the document is ignored, kept, created or updated as its decision says; the object is written to exactly in the last two cases |
| SpecReconciliation.ReplayIsInvisible | src/projects/spec-reconciliation/spec-reconciliation.service.ts:142-143 | however often metadata has been written into an object, its comparable content, its author's content and its being an operation stay what they were |
| SpecReconciliation.DecisionIgnoresWrites | src/projects/spec-reconciliation/spec-reconciliation.service.ts:59-66 | an object met again after the engine has written to it is judged as its incoming value calls for |
| SpecReconciliation.CollectUnseen | src/projects/spec-reconciliation/spec-reconciliation.service.ts:94-97 | the loop collects the ids of rows whose key was not seen, in index order |
| SpecReconciliation.Reconcile | src/projects/spec-reconciliation/spec-reconciliation.service.ts:22-100 | for any sharing of objects, the three lists are those called for by the incoming values, and each object ends with its own value under the metadata written to it, in order |
| Projects.ByKeyMeaning | src/projects/spec-reconciliation/spec-reconciliation.service.ts:29-32 | with distinct keys the index holds every row under its own key and nothing else |
| Projects.DoomedMeaning | src/projects/spec-reconciliation/spec-reconciliation.service.ts:94-97 | a row is deleted if and only if it belongs to the project and the document has no accepted operation under its key |
| Projects.RunStatements | src/projects/projects.service.ts:470-487 | the transaction's statements leave the table that deleting, creating and updating in turn describes, or nothing if a create clashes |
| Projects.ImportKeepsNamesDifferent | src/projects/projects.service.ts:489-499 | "every normalised name is the name in lower case, and no two are equal" is kept by every import |
| Projects.TakenTitleConflicts | src/projects/projects.service.ts:489-530 | an import whose title is another project's name up to case ends in a conflict |
| Projects.ProjectsService.ImportOpenApiSpec | src/projects/projects.service.ts:456-502 | all or nothing: either the whole import is committed, with project names still different up to case, or an error is returned and no row and no project has changed |
| ImportSteps.ImportClashesIff | src/projects/projects.service.ts:474-476 | the create step violates uniqueness if and only if the document gives one new path two method keys equal up to case |
| ImportSteps.LastRewriterWins | src/projects/projects.service.ts:478-487 | of several updates to one row the last entry's operation stays, and a row no entry rewrites is untouched |
| ImportSteps.RowAfter | src/projects/projects.service.ts:470-487 | rows of other projects stay; a row without an accepted operation is gone; any other survives as the last differing entry with its key leaves it |
| ImportSteps.IdsAfter | src/projects/projects.service.ts:470-487 | the ids after an import are those not deleted plus one fresh id per create, whose row no later update touches |
| ImportSteps.ImportKeepsWellFormed | src/projects/projects.service.ts:470-487 | methods stay lower-case and valid, and routes unique per project, after each of the three statements |
| ImportTheorems.ImportReachesDocument | src/projects/spec-reconciliation/spec-reconciliation.service.ts:39-97 | apply after diff reaches the target: the import succeeds, the project then has exactly one endpoint per accepted operation with its content, and other projects are untouched |
| ImportTheorems.ImportCommitsIff | src/projects/projects.service.ts:456-501 | the import commits if and only if the project has the quoted version, no new path clashes with itself and no other project has the title; it then stores the title, the title in lower case and the importing user, and no other project changes |
| ImportTheorems.BlurredMeaning | src/projects/spec-reconciliation/spec-reconciliation.service.ts:110-116 | the change test confuses two different operations exactly when one of them is not an object and both look empty to it |
| ImportTheorems.ImportThenBuild | src/projects/spec-builder/openapi-spec.builder.ts:21-29 | the document printed after an import has exactly the accepted routes, each once, and every one prints as imported up to metadata if and only if no stored operation was confused with its incoming one |
| ImportTheorems.ArraysAreBlurred | src/projects/spec-reconciliation/spec-reconciliation.service.ts:110-116 | two arrays are confused exactly when they differ |
| ImportTheorems.ObjectsPrintAsImported | src/projects/spec-builder/openapi-spec.builder.ts:21-29 | if stored and incoming operations are objects, every accepted operation prints as imported up to metadata, and operations are objects afterwards too |
| ImportTheorems.ImportSettlesIff | src/projects/spec-reconciliation/spec-reconciliation.service.ts:54-65 | importing any imported document again, by anyone, creates and deletes nothing, and updates nothing if and only if entries whose method keys are equal up to case have equal content |
| ImportTheorems.TwinsNeverSettle | src/projects/spec-reconciliation/spec-reconciliation.service.ts:43-80 | a document with different operations under `get` and `GET` of an existing path, which every later import updates again |
| ImportTheorems.ReadDocumentMirrors | src/projects/spec-reconciliation/spec-reconciliation.service.ts:39-48 | walking a printed document meets every printed operation and no other |
| ImportTheorems.ImportingOwnBuild | src/projects/spec-reconciliation/spec-reconciliation.service.ts:50-65 | importing a project's own printed document creates and updates nothing and deletes exactly the rows whose operation the engine does not accept |
| ImportTheorems.RefRowIsDeleted | src/projects/spec-reconciliation/spec-reconciliation.service.ts:50-52 | a project whose one operation carries a `$ref` that is no reference loses it by importing its own printed document |
| ImportTheorems.ImportIsMinimal | src/projects/spec-reconciliation/spec-reconciliation.service.ts:29-99 | every row is deleted or survives; a survivor keeps id, route, status, creator and creation date and is rewritten only where the content differs; created routes are new and distinct; the count changes by creates minus deletes |
| ImportProvenance.LastWriterWins | src/projects/spec-reconciliation/spec-reconciliation.service.ts:142-143 | an object ends with its incoming content and the metadata of the last entry that wrote to it |
| ImportProvenance.ImportRecordsImporter | src/projects/spec-reconciliation/spec-reconciliation.service.ts:68-90 | every row an import creates or rewrites names the importing user as editor, by id in the row and by name in its operation, however objects are shared; a created row is a draft of that user |
| ImportProvenance.ImportKeepsOriginIff | src/projects/spec-reconciliation/spec-reconciliation.service.ts:124-144 | for every document, an import keeps a surviving row's creator and creation date if and only if the last entry that rewrites it is an object and no later entry with another provenance writes to that object |
| ImportProvenance.UnsharedImportKeepsOrigins | src/projects/spec-reconciliation/spec-reconciliation.service.ts:124-144 | with pairwise distinct operations a surviving endpoint keeps its creator and creation date if and only if no array, on which metadata is lost, takes the place of its operation |
| ImportProvenance.SharedObjectLosesOrigin | src/projects/spec-reconciliation/spec-reconciliation.service.ts:159-160 | a document whose existing and new path share one object makes the importing user the creator of the existing endpoint |
| OpenApiSpecBuilder.Build | src/projects/spec-builder/openapi-spec.builder.ts:16-54 | the loops assemble the document: header, paths, and schemas only if there are any |
| OpenApiSpecBuilder.DocumentReads | src/projects/spec-builder/openapi-spec.builder.ts:36-53 | reading the document gives back version, header, servers, paths and, exactly if there are any, the schemas |
| OpenApiSpecBuilder.HeaderMeaning | src/projects/spec-builder/openapi-spec.builder.ts:38-46 | name and description are the project's; servers are what is stored if that is a list, and else an empty list |
| OpenApiSpecBuilder.SchemasLookup | src/projects/spec-builder/openapi-spec.builder.ts:31-34 | the schemas hold, each name once, the last component of every name and nothing else |
| OpenApiSpecBuilder.PathsLookup | src/projects/spec-builder/openapi-spec.builder.ts:21-29 | under each path and lower-case method the document holds the last row with that route, and nothing else |
| OpenApiSpecBuilder.PathsAreTidy | src/projects/spec-builder/openapi-spec.builder.ts:21-29 | every path is printed once, with at least one method, each method once |
| EndpointsService.EndpointsService.Create | src/projects/endpoints/endpoints.service.ts:121-185 | succeeds if and only if the project has no endpoint under the route, and then exactly the new row is added; on a conflict nothing changes; the table stays well-formed |
| EndpointsService.CreatedMeaning | src/projects/endpoints/endpoints.service.ts:132-154 | a new row has the submitted route and content, is a draft unless a status is submitted, and names its creator as creator and last editor |
| EndpointsService.UpdateMeaning | src/projects/endpoints/endpoints.service.ts:205-238 | an update succeeds if and only if the row is at the quoted version and no other endpoint has the route; it writes route, content, status if given, editor and version, and leaves every other column |
| EndpointsService.StatusMeaning | src/projects/endpoints/endpoints.service.ts:285-299 | a status change succeeds if and only if the row still has the status read, and writes status, editor and version only |
| EndpointsService.EndpointsService.SaveUpdate | src/projects/endpoints/endpoints.service.ts:205-245 | the write succeeds only on the quoted version and a free route, replaces that row alone and reports the change; on an error nothing changes |
| EndpointsService.EndpointsService.SaveStatus | src/projects/endpoints/endpoints.service.ts:275-323 | nothing happens if the status is right already; otherwise compare-and-set on the status read, with one event per success |
| EndpointsService.EndpointsService.Remove | src/projects/endpoints/endpoints.service.ts:351-368 | exactly the named row of the project is removed, or nothing |
| EndpointProtocol.ReadsMeaning | src/projects/endpoints/endpoints.service.ts:200-283 | arrivals and reads touch no row and no other request; an update remembers the row it found in its project, and a status change goes on only if the row has another status |
| EndpointProtocol.StepIsSound | src/projects/endpoints/endpoints.service.ts:121-376 | in every interleaving each step keeps the table well-formed, replaces rows only by newer versions, never reuses an id, and keeps true what pending requests remember |
| EndpointRuns.SavedView | src/projects/endpoints/endpoints.service.ts:221-238 | after a committed update the project shows exactly the written row under the submitted route, the old route is free unless it is the same, and nothing else has changed |
| EndpointRuns.CreatedView | src/projects/endpoints/endpoints.service.ts:144-159 | a create adds exactly one endpoint if its route is free in the project, and otherwise nothing |
| EndpointRuns.RemovedView | src/projects/endpoints/endpoints.service.ts:351-358 | a removal takes exactly the named endpoint out of its project |
| EndpointRuns.UpdateOverwritesWhatItReadIff | src/projects/endpoints/endpoints.service.ts:200-238 | a successful update overwrites the row it read if and only if the quoted version had been issued by the time of the read |
| EndpointRuns.NoLostUpdates | src/projects/endpoints/endpoints.service.ts:200-245 | over every run, each reported update replaced the quoted version, and no version of an endpoint is updated twice |
| EndpointRuns.StatusChainIff | src/projects/endpoints/endpoints.service.ts:221-323 | over every run and for every endpoint, deleted or not, reported statuses chain from its first status to its last if and only if each of its updates reported the status it replaced; a break is never mended, and no status change goes from a status to itself |
| EndpointRuns.StatusChainIsUnbroken | src/projects/endpoints/endpoints.service.ts:221-323 | over every run of clients that quote versions they may have seen, every update reports the row it replaced and every endpoint's chain is unbroken |
| EndpointRuns.IdsNeverReturn | src/projects/endpoints/endpoints.service.ts:351-358 | over every run the id of a deleted endpoint is never given to another |
| EndpointOrigins.ImportKeepsRecordIff | src/projects/projects.service.ts:478-487 | across an import a surviving endpoint keeps its recorded creation if and only if it is of another project or undisturbed |
| EndpointOrigins.UnsharedIsConsiderate | src/projects/spec-reconciliation/spec-reconciliation.service.ts:142-143 | imports whose written operations are pairwise distinct objects disturb nobody |
| EndpointOrigins.RunKeepsOrigin | src/projects/endpoints/endpoints.service.ts:205-219 | over every run of creates, edits, status changes, deletes and imports that leave the row undisturbed, whatever versions clients quote, well-formed creator and creation date never change while the id lives, unless an update under way can still commit another record |
| EndpointOrigins.OriginIsSettledIff | src/projects/endpoints/endpoints.service.ts:200-238 | from any sound state, the record stays in every continuation if and only if no update under way that can still commit would write another |
| EndpointOrigins.ThreatCanCommit | src/projects/endpoints/endpoints.service.ts:221-238 | an update whose quoted version is, or can still become, its row's has a continuation that commits it, without any import |
| EndpointOrigins.TimelyRunKeepsOrigin | src/projects/endpoints/endpoints.service.ts:200-226 | where clients quote versions they may have seen, the record stays from the moment it is well-formed, whatever updates are under way |
| EndpointOrigins.OriginIsForLife | src/projects/endpoints/endpoints.service.ts:132-142 | creator and creation date recorded at the start of a run or at an endpoint's birth stay for life, with no condition on what clients quote |
| EndpointOrigins.StaleSaveChangesOrigin | src/projects/endpoints/endpoints.service.ts:200-226 | a run in which an update that read the row before it had metadata changes the creator an import has recorded since |
| EndpointRuns.FutureQuoteBreaksTheChain | src/projects/endpoints/endpoints.service.ts:221-226 | a run in which a client quotes a version not yet issued, the update overwrites a row it did not read and the chain of statuses breaks |
| Locking.BroadcastMeaning | src/locking/locking.gateway.ts:96-101 | a broadcast reaches exactly the clients in the room of the resource, each once |
| Locking.LockingGateway.HandleSubscribe | src/locking/locking.gateway.ts:72-86 | the subscription step of the runs: the client is sent the current status and is then in the room; an empty resource name does nothing |
| LockRuns.RoomsHoldFollowers | src/locking/locking.gateway.ts:72-94 | over every run, the room of a resource holds exactly the clients that have subscribed to it and not unsubscribed since |
| Locking.LockingGateway.HandleUnsubscribe | src/locking/locking.gateway.ts:88-94 | the client is out of that room and of no other |
| Locking.LockingService.AcquireLock | src/locking/locking.service.ts:51-85 | refused with the present lock if somebody else's is live; otherwise refreshed in place or replaced, and announced |
| Locking.LockingService.ReleaseLock | src/locking/locking.service.ts:87-99 | the caller's own lock goes, expired or not, and its going is announced; anybody else's stays |
| Locking.LockingService.IsLockedBy | src/locking/locking.service.ts:101-104 | true exactly for the holder of a live lock |
| Locking.LockingService.CleanupExpiredLocks | src/locking/locking.service.ts:106-121 | walking the map while deleting from it removes exactly the expired locks and announces each once |
| Locking.LockingService.GetLockStatus | src/locking/locking.service.ts:129-135 | the live lock, or none |
| Locking.LockOwnerGuard.CanActivate | src/locking/guards/lock-owner.guard.ts:10-28 | a save passes exactly when the caller holds the endpoint's live lock |
| LockRuns.AcquireRefines | src/locking/locking.service.ts:51-85 | seen through the map of live locks, acquire does nothing when another user's lock is live and otherwise puts the caller's lock there for one duration |
| LockRuns.ReleaseRefines | src/locking/locking.service.ts:87-99 | seen through the map of live locks, release removes the caller's live lock and nothing else; releasing an expired one is invisible |
| LockRuns.OthersAreInvisible | src/locking/locking.service.ts:106-121 | the sweep and subscriptions never change the map of live locks |
| LockRuns.SweepMeaning | src/locking/locking.service.ts:106-121 | a sweep leaves exactly the live locks |
| LockRuns.MessagesMeaning | src/locking/locking.service.ts:51-121 | the room hears of a granted or refreshed lock, of its release by the owner and of its sweeping, each once; whoever subscribes hears the status; nobody hears anything else |
| LockRuns.QueriesSeeLiveLocks | src/locking/locking.service.ts:101-135 | status, refusal and the question who holds a lock are answered by the map of live locks |
| LockRuns.ExpiriesAreBounded | src/locking/locking.service.ts:54-75 | over every run, each stored expiry is at most one lock duration after the clock |
| LockRuns.LeaseExcludesOthers | src/locking/locking.service.ts:54-85 | after a grant, no other user's acquire succeeds before its expiry unless the holder released it in between |
| LockRuns.HolderAlonePassesGuard | src/locking/guards/lock-owner.guard.ts:19-27 | until then the holder passes the save gate and nobody else does |
| LockRuns.SubscribersSeeTheTruth | src/locking/locking.gateway.ts:72-101 | over every run, what a client that has subscribed and not unsubscribed since was last sent, dropped once expired, equals the lock status at every instant until the next operation |
| MockServer.FindMatchingOperation | src/mock-server/mock-server.service.ts:112-137 | no answer exactly when no path of the document answers |
| MockServer.ParamAheadIff | src/mock-server/mock-server.service.ts:120 | a parameter starts exactly where a name stands in braces |
| MockServer.MatchesIff | src/mock-server/mock-server.service.ts:120-122 | a path matches a request if and only if one non-empty, slash-free text for each parameter spells the request, up to case and one more `/` |
| MockServer.MatchKeepsSegments | src/mock-server/mock-server.service.ts:120-122 | a template answers no request with more or fewer segments than its own, one `/` at the end apart |
| MockServer.JudgeMeaning | src/mock-server/mock-server.service.ts:129-131 | the mock server serves exactly the operations an import accepts |
| MockServer.ServedFromDocument | src/mock-server/mock-server.service.ts:119-134 | what is served stands in the document under a matching path and the requested, valid method; and if there is such an operation, something is answered |
| MockServer.FirstAnswerWins | src/mock-server/mock-server.service.ts:119-134 | the first path that answers decides |
| MockServer.TemplateAgreesUpToParam | src/mock-server/mock-server.service.ts:120-122 | a template that matches a request agrees with it, up to case, before its first parameter, where the request has a character other than `/` |
| MockServer.TemplateOrder | src/projects/projects.service.ts:393-396 | a matching template sorts before the request exactly when, at their first difference, no later than the template's first brace, its character is the smaller |
| MockServer.LiteralOrder | src/projects/projects.service.ts:393-396 | a literal path that matches another request sorts before it exactly when its first differing letter is the smaller or it lacks the request's last `/` |
| MockServer.LiteralAnswersIff | src/mock-server/mock-server.service.ts:119-134 | a request spelled out by a literal path is answered by that path if and only if no path overtakes it, and otherwise by one that does |
| MockServer.NoTemplateBeforeLiteralIff | src/mock-server/mock-server.service.ts:119-134 | no template answers before the literal path if and only if none that answers stands ahead of it by its first brace |
| MockServer.PlainTemplateStandsBack | src/mock-server/mock-server.service.ts:119-122 | a template in lower case before its first brace, whatever its parameters are called, never stands ahead of a request with characters below the brace |
| MockServer.BuildIsAscending | src/projects/spec-builder/openapi-spec.builder.ts:23-29 | rows read in path order print their paths in ascending order |
| MockServer.LiteralRowAnswers | src/projects/projects.service.ts:393-396 | from the table to the answer: a row's literal path is answered by that row if and only if no row overtakes it, and otherwise by one that does |
| MockServer.LiteralRowBeatsTemplates | src/projects/projects.service.ts:393-396 | literal beats template for paths with characters below `{`, beside any templates in lower case before their first brace and any literals that differ by more than case or a last `/` |
| MockServer.TildeIsOvertaken | src/mock-server/mock-server.service.ts:119-134 | a document in which a template takes the requests of a literal path with a character above `{` |
| MockServer.UpperCaseTemplateWins | src/mock-server/mock-server.service.ts:120-122 | a document in which a template in upper case takes the requests of a literal path |
| Usernames.DecimalIsInjective | src/auth/auth.service.ts:170 | distinct counters print distinctly |
| Usernames.DecimalReadsBack | src/auth/auth.service.ts:170 | a printed counter reads back to its value, without leading zero |
| Usernames.ProbesAreBounded | src/auth/auth.service.ts:167-180 | if the base and the first numbers are all taken, at least as many names are taken: the search cannot go on longer than that |
| Usernames.FindAvailableUsername | src/auth/auth.service.ts:142-181 | terminates for every finite set of taken names and every random start, with a free name; the base if free, else the first free suffixed name from the start, else, with all those taken, the least free number |
| Usernames.SuffixOrder | src/auth/auth.service.ts:151-155 | suffixes are tried in their order, from the random start to the end and on from the beginning |
| Usernames.NumericPhaseIsShort | src/auth/auth.service.ts:153-180 | with suffixes that do not begin with a digit, the counter is at most the number of taken names less the suffixed ones |
| Mentions.ParseMentions | src/notifications/notification.service.ts:242-249 | returns exactly the maximal non-empty runs of username characters that directly follow an `@` |
| Mentions.MentionIsFound | src/notifications/notification.service.ts:17 | an `@name` yields the name with the username characters that follow it, whatever surrounds it, and nothing else starts at that `@` |
| Mentions.MentionsAreUsernames | src/common/constants/validation.constants.ts:6-11 | whatever is looked up is a valid username and stands after an `@` in the text |
| Mentions.UsernameCharMeaning | src/common/constants/validation.constants.ts:6 | username characters are letters, digits, dot, underscore and hyphen |
| Encryption.HexRoundTrip | src/encryption/encryption.service.ts:36-58 | decoding undoes encoding (section 8 of RFC 4648) |
| Encryption.HexMeaning | src/encryption/encryption.service.ts:36 | two lower-case digits a byte, the higher one first (section 8 of RFC 4648) |
| Encryption.SplitAtColon | src/encryption/encryption.service.ts:49 | splitting at colons undoes joining with one |
| Encryption.EnvelopeShape | src/encryption/encryption.service.ts:36 | the envelope is `iv:tag:data` in hexadecimal |
| Encryption.DecryptMeaning | src/encryption/encryption.service.ts:47-72 | a text is malformed if and only if one of its first three parts is missing or empty; further parts change nothing; what the cipher refuses is rejected |
| Encryption.EnvelopeRoundTrip | src/encryption/encryption.service.ts:29-64 | what was sealed opens to the same text if and only if the text is not empty; the empty one is rejected as malformed |
| Secrets.SecretsService.Create | src/projects/secrets/secrets.service.ts:30-55 | succeeds exactly when the key is free in the environment, and then a listing shows the returned secret and all else as before |
| Secrets.SecretsService.FindAllForEnvironment | src/projects/secrets/secrets.service.ts:66-81 | lists the environment's secrets in plain text; one unreadable secret fails the whole listing |
| Secrets.SecretsService.Update | src/projects/secrets/secrets.service.ts:83-126 | changes the given parts of that secret only; the returned value is what a later listing shows if and only if the value was not empty |
| Secrets.SecretsService.Remove | src/projects/secrets/secrets.service.ts:128-146 | exactly that secret disappears from its environment's listing, or nothing does |
| Sessions.AccountService.ReadForSignIn | src/auth/auth.service.ts:32-47 | a row is handed out for sign-in if and only if the user exists, is not deleted and, with local credentials, has a password that matches |
| Sessions.RequestsAreChecked | src/auth/auth.service.ts:36-81 | over every run, each token goes back to a read that found its user existing, not deleted, and signed in through a provider or with a matching password; each password change or deletion under way goes back to a check that allowed it |
| Sessions.VersionsCountBumps | src/users/users.service.ts:100-138 | over every run, a user's version is one more than the number of times it was raised |
| Sessions.RevokesIff | src/users/users.service.ts:100-106 | writing a user's row turns away exactly that user's tokens, at the token check and at the socket gateway, if and only if it changes the version, provided it does not bring a deleted user back |
| Sessions.WriteMeetsItsCheckIff | src/users/users.service.ts:77-106 | over every run, a password change or deletion overwrites the row it checked if and only if no version of that user was raised since the check |
| Sessions.SetPasswordReplacesNoneIff | src/users/users.service.ts:116-138 | over every run, a first password replaces none if and only if the user's version was not raised since the check, or last by a deletion |
| Sessions.DeletedTwiceIff | src/admin/users/admin-users.service.ts:220-238 | over every run, a deletion strikes a user already deleted if and only if another deletion committed since its check |
| Sessions.BothSetPassword | src/users/users.service.ts:116-138 | a run in which two requests both find no password and the second replaces the first one's |
| Sessions.TokensAreRevokedExactly | src/auth/strategies/jwt.strategy.ts:29-41 | over every run, an unexpired token is accepted exactly when its user is not deleted and no version bump followed the row read it was issued from; the socket gateway, which does not look at deletion, agrees |
| Sessions.RunIsMonotone | src/users/users.service.ts:100-138 | users stay, versions never decrease, deletion is final |
| Sessions.DeletedUserStaysOut | src/auth/strategies/jwt.strategy.ts:35-41 | a deleted user is never accepted again, with whatever token, and every later sign-in stops at the read |
| ProjectAccess.CreateAccessMeaning | prisma/schema.prisma:203-213 | a bulk insert of access rows succeeds exactly when all ids are known, new and distinct, and then adds exactly those |
| ProjectAccess.ReplaceMeaning | src/projects/projects.service.ts:283-337 | replacing succeeds if and only if all ids are known and none is listed twice across owners and viewers, and then both lists read back as submitted |
| ProjectAccess.AccessService.UpdateAccess | src/projects/projects.service.ts:245-355 | succeeds exactly when the caller keeps ownership or is an admin, the version is the quoted one and the lists are consistent; then the lists read back as sets and the caller can still own the project; otherwise nothing has changed |
| ProjectAccess.ListingAgreesWithGuard | src/projects/projects.service.ts:534-550 | the filter of the listings and the guard of single projects let the same projects through |
| ProjectAccess.AccessMeaning | src/access-control/access-control.service.ts:18-65 | by the lists a project's detail shows, one owns it if and only if one, or a team, is among the owners, and sees it if and only if one, or a team, is among owners or viewers and one is not denied |
| ProjectAccess.AccessToMissing | src/access-control/access-control.service.ts:19-64 | only admins own or see a project that does not exist |
| ProjectAccess.GuardIsExact | src/projects/projects.service.ts:260-269 | the guard against giving up ownership lets through exactly those who own the project under the submitted lists |
| ProjectAccess.OwnersSeeUnlessDenied | src/access-control/access-control.service.ts:18-65 | an owner sees the project unless denied; denial does not take away ownership |

## Left out

- Database: tables are maps with their uniqueness constraints, transactions are atomic, and statements issued together inside one transaction run one after another; foreign keys appear only in the access list, so creating an endpoint in an unknown project is not modelled.
- Write timestamps: assumed to increase strictly with every write to an endpoint row, one for each import; the service does not distinguish two writes within one millisecond either.
- Document input: the theorems are about the dereferenced and linted document; parsing, reference resolution and linting are libraries not modelled here. Description and servers of the imported project row are left out.
- Project version in interleavings: an import is one step, its committing transaction, and may happen at any time, which allows more than the version check of the project row does; endpoint writes do not move that version.
- JSON: numbers are represented by their printed text, strings are sequences of Unicode scalar values, records keep insertion order; integer-like keys and `__proto__` behave differently in JavaScript.
- Lower case: `toLowerCase` is modelled on ASCII letters.
- EndpointOrigins.RunKeepsOrigin: imports are asked to leave the row undisturbed, which `ImportProvenance.ImportKeepsOriginIff` shows to be exactly what they must do; linting and unshared operation objects see to it.
- EndpointsService.EndpointsService.SaveUpdate: the row and the creator's user name, which the service has read before, are parameters.
- Events: only the two that report changes of an endpoint; audit, notification and changelog listeners are asynchronous and have no part in the properties.
- Locks: each message is a snapshot, sending the status and joining the room is one step, and disconnection is not modelled; timers become operations that may happen at any time.
- Lock guard and editing protocol: proved separately; between the guard and the database write a lease may expire, which the version check covers.
- MockServer.LiteralAnswersIff: for literal paths without a `{`; templates are literals and one-or-more-character parameters, and other features of the matching library are left out.
- Mock responses: choosing and generating a response body, delays and locales.
- Usernames: a concurrent creation between the last probe and the insert is not modelled; the database then refuses the insert.
- Encryption: the cipher and the text coding are parameters that satisfy an inverse law, which `Encryption.LawfulCipherExists` shows can be met; randomness of the initialisation vector plays no part.
- Secrets: the order of the listing; a concurrent removal between the two statements of an update.
- Sign-in: password hashing, signing and expiry of tokens, roles and team memberships; the new name of a deleted user is assumed to be free.
- ProjectAccess.AccessService.UpdateAccess: an unknown denied user is taken to abort the transaction, and the caller's teams are those loaded with the token.
- Teams, environments, notes, schemas, server lists, pagination, uploads, logging and configuration: no property beyond single statements.
