# dms — a verified model of its core

dms is a document-management system built from .NET microservices that talk over
RabbitMQ, plus a small Go service, log-saver. This project models the logic of
that core in Dafny and proves what it promises:

- **Document service**: the event-sourced document store, its scan queue and
  status service, the cached queries (by id, by user, paged lists, rollback),
  and the data-deletion saga that answers the User service.
- **Auditing service**: the auditing entity, which folds uploaded, updated,
  deleted and rolled-back events in place, in order of creation time;
  the in-memory event storage; the queries over it; and the RabbitMQ log
  consumer that stores a log line before acknowledging it.
- **User service**: the user store and refresh-token generator; login with a
  three-strikes lockout; refresh-token redemption; the create, update,
  change-password and delete commands with their FluentValidation rules and
  the validation pipeline; the shadow-property `DbContext`, whose pass over
  soft deletions and user data is modelled both as written (it throws) and as
  evidently intended (soft deletions become updates, user data is stamped),
  and what that pass does to the deletion of a user; and the saga that
  deletes a user's documents.
- **Access Control service**: roles and their permissions, grants and
  assignments, the permission checks and entitlement queries, and the
  validators of each request.
- **Organization service**: members with roles, invitations and their
  acceptance, and the "my organization" query.
- **log-saver** (Go): the consume loop that pushes each delivery to Redis and
  then acks it, or nacks it with requeue; the trimming of secrets; and the TLS
  server name.
- **Frontend**: the reading of JWT claims in the authentication state
  provider, with the base64 alphabet it relies on.

Conventions:

- Identifiers (`Guid`) are natural numbers, and `0` is `Guid.Empty`.
- Times are integer ticks.
- A nullable `float` version is an `Option<real>`.
- Strings are sequences of Unicode characters. The validators' length rules count UTF-16 code units, as .NET's `Length` does.
- Integer arithmetic is unbounded except where the source's 32-bit `int` can overflow on valid input (the page offset), which is wrapped explicitly.
- `ErrorOr` errors are `Error(kind, code, description)`.
- Oracles are parameters of the operations that use them: hashing, JWT
  signing, random bytes, JSON parsing, virus scans and the outcome of a save.
- Where a source file updates state in place, the model is a class whose
  methods are proved against pure specification functions. Where the source
  computes values, the model is functions and lemmas.

## Model

| member | source | states |
|---|---|---|
| Validation.Rule | User/User.Api.Common/Behaviour/ValidationBehaviour.cs:21-23 | a rule reports nothing when it holds and exactly one failure on its property with its message when it does not |
| Validation.ToError | User/User.Api.Common/Behaviour/ValidationBehaviour.cs:26-29 | each failure becomes a Validation error whose code is the property name and whose description is the message |
| Validation.Handle | User/User.Api.Common/Behaviour/ValidationBehaviour.cs:16-32 | the handler's answer is returned exactly when there is no validator or no failure; otherwise one Validation error per failure, in order |
| Validation.InvalidIgnoresHandler | User/User.Api.Common/Behaviour/ValidationBehaviour.cs:23-31 | an invalid request's answer does not depend on the handler, which is never called |
| Validation.ErrorsRecoverFailures | User/User.Api.Common/Behaviour/ValidationBehaviour.cs:26-29 | the errors carry every failure's property and message back unchanged and in order |
| Common.Utf16Length | User/User.Api.Entities/Users/CreateUser.cs:53-64 | the length the Length rules measure lies between the number of characters and twice it, and equals it when every character is in the Basic Multilingual Plane |
| Common.Utf16LengthConcat | User/User.Api.Entities/Users/CreateUser.cs:53-64 | the length of a concatenation is the sum of the lengths |
| Common.ToLower | User/User.Api.Entities/Authentication/Login.cs:50 | lower-casing keeps the length and maps each upper-case ASCII letter to its lower-case form and every other character to itself |
| Common.SaveOutcome | Auditing/Auditing.Api.Entities/Documents/UpdateDocument.cs:77-79 | a stored event is answered with its id and a refused one with the Failure "something went wrong trying so save the file." |
| LogSaver.Step | log-saver/main.go:85-106 | one loop iteration ends with exactly one settlement of its own delivery: a requeueing nack when the body does not parse or the push fails, otherwise a push of the raw body followed by an ack |
| LogSaver.StepSettlesOnce | log-saver/main.go:88-105 | an iteration settles its own tag once and no other tag, and pushes the raw body exactly when it parsed and the push succeeded |
| LogSaver.RunSettlesEachOnce | log-saver/main.go:85-106 | with the broker's distinct delivery tags, every delivered tag is settled exactly once and no other tag is settled |
| LogSaver.RunPushesOnlyToListKey | log-saver/main.go:113-116 | every push goes to "rabbitmq_messages", and the list grows by exactly the raw bodies that parsed and were pushed, in processing order |
| LogSaver.RunAcksOnlyAfterPush | log-saver/main.go:98-105 | in the trace every ack comes straight after a successful push and every push is followed by its ack; a failed push or parse never acks |
| LogSaver.RetryAfterFailedPushStoresOnce | log-saver/main.go:98-103 | a delivery nacked after a failed push and then redelivered is stored once |
| LogSaver.RedeliveryAfterPushStoresTwice | log-saver/main.go:98-105 | a delivery pushed and redelivered (its ack lost) is stored twice: the store is at-least-once |
| LogSaver.Service.StoreMessage | log-saver/main.go:113-120 | the push appends the message to the "rabbitmq_messages" list and changes nothing else; a failed push changes nothing and reports the error |
| LogSaver.Service.HandleDelivery | log-saver/main.go:86-105 | the store and the trace after one delivery: unparsed bodies and failed pushes leave the store unchanged and requeue the delivery |
| LogSaver.Service.Consume | log-saver/main.go:50-106 | after the loop the store is `PushAll` of the stored bodies: only the "rabbitmq_messages" list changes, by the stored bodies appended, and the key appears only when something was pushed; the trace is the run's trace |
| LogSaver.PushAll | log-saver/main.go:84-93 | pushing bodies appends them to the "rabbitmq_messages" list, creates that key only when there is something to push, and leaves every other key as it was |
| LogSaver.PushAllSnoc | log-saver/main.go:84-93 | one more push extends the pushed bodies by that body |
| LogSaver.TrimLeft | log-saver/main.go:127 | the result is a suffix of the text, what it dropped is white space, and it does not start with white space |
| LogSaver.TrimRight | log-saver/main.go:127 | the result is a prefix of the text, what it dropped is white space, and it does not end with white space |
| LogSaver.TrimSpaceIsCore | log-saver/main.go:122-128 | the secret read is a contiguous slice of the file with only white space around it and no white space at either end |
| LogSaver.TrimSpaceRecoversCore | log-saver/main.go:127 | surrounding a text that starts and ends with non-space by white space and trimming gives the text back |
| LogSaver.TrimLeftSkipsSpace | log-saver/main.go:127 | trimming the left skips exactly the leading white space |
| LogSaver.TrimRightSkipsSpace | log-saver/main.go:127 | trimming the right drops exactly the trailing white space |
| LogSaver.TrimSpaceIdempotent | log-saver/main.go:127 | trimming twice is trimming once |
| LogSaver.HostPart | log-saver/main.go:68 | the TLS server name is the prefix of the address before its first ':', or the whole address without one |
| LogSaver.HostPartOfHostPort | log-saver/main.go:68 | the server name of "host:port" is the host when the host has no ':' |
| LogSaver.HostPartWithoutPort | log-saver/main.go:68 | an address without ':' is its own server name |
| Amqp.Requeue | log-saver/main.go:92-101 | the nack used to give a delivery back is a single-delivery nack with requeue set |
| LogConsumer.Settle | Auditing/Auditing.Api.Infrastructure/Services/RabbitMqLogConsumer.cs:29-49 | a delivery is acked exactly when it deserialized to a non-null log that was saved, that log is the one saved, and every other outcome is a single requeueing nack of the same tag |
| LogConsumer.RepliesSettleEachOnce | Auditing/Auditing.Api.Infrastructure/Services/RabbitMqLogConsumer.cs:27-50 | the callback sends one reply per delivery, in order, for that delivery's tag |
| LogConsumer.AcksCountSaved | Auditing/Auditing.Api.Infrastructure/Services/RabbitMqLogConsumer.cs:40-43 | the number of acks equals the number of logs saved |
| LogConsumer.Consumer.Received | Auditing/Auditing.Api.Infrastructure/Services/RabbitMqLogConsumer.cs:27-50 | one callback appends the saved log, if any, to `Logs` and sends the reply `Settle` gives |
| LogConsumer.Consumer.Consume | Auditing/Auditing.Api.Infrastructure/Services/RabbitMqLogConsumer.cs:24-52 | over a run of deliveries `Logs` gains exactly the saved logs in order and the replies are those of `Replies` |
| AuditingEvents.Apply | Auditing/Auditing.Api.Domain/Entities/Document.cs:21-108 | an event of a type the dispatcher does not match leaves the entity unchanged; after a rollback the editor is the rollback's user and the version the rollback's version, whatever was replayed |
| AuditingEvents.RollbackBase | Auditing/Auditing.Api.Domain/Entities/Document.cs:90-100 | a rollback resets every field to its default except the update time and the version 0 |
| AuditingEvents.ApplyAllConcat | Auditing/Auditing.Api.Domain/Factories/DocumentFactory.cs:15-16 | applying events one by one: folding a concatenation folds its halves in turn |
| AuditingEvents.ProjectAppendLatest | Auditing/Auditing.Api.Domain/Factories/DocumentFactory.cs:15-16 | an event no earlier than every stored one changes the projection by exactly one `Apply` |
| AuditingEvents.ProjectEmpty | Auditing/Auditing.Api.Domain/Factories/DocumentFactory.cs:14-18 | the projection of no events is a freshly constructed entity |
| AuditingEvents.RollbackOfNothing | Auditing/Auditing.Api.Domain/Entities/Document.cs:88-109 | a rollback with nothing to replay yields a default entity apart from its update time, editor and version |
| AuditingEvents.RollbackIgnoresState | Auditing/Auditing.Api.Domain/Entities/Document.cs:88-109 | a rollback's outcome does not depend on the state it is applied to |
| AuditingEvents.UpdateKeepsIdentity | Auditing/Auditing.Api.Domain/Entities/Document.cs:54-77 | an update never changes the id or upload time and always stamps update time, editor and version |
| AuditingEvents.UpdateIdempotent | Auditing/Auditing.Api.Domain/Entities/Document.cs:54-77 | applying the same update twice is applying it once |
| AuditingEvents.DeleteKeepsMetadata | Auditing/Auditing.Api.Domain/Entities/Document.cs:79-86 | a delete sets the file URL to "[Deleted]" and the size to 0 and keeps id, name, description and upload time |
| AuditingEvents.SortedHeight | Auditing/Auditing.Api.Domain/Entities/Document.cs:102 | ordering the events to replay does not deepen their nesting, so the replay terminates |
| AuditingEvents.NewUpdated | Auditing/Auditing.Api.Domain/Events/DocumentUpdatedEvent.cs:25-38 | the update event carries the document id, the requested version and the file's length |
| AuditingEvents.NewDeleted | Auditing/Auditing.Api.Domain/Events/DocumentDeletedEvent.cs:10-19 | the delete event carries the document id and a null version |
| AuditingEvents.NewRollback | Auditing/Auditing.Api.Domain/Events/DocumentRolebackEvent.cs:12-19 | the rollback event carries the id, the requested version and the events to replay |
| AuditingEvents.NewUploadedAsWritten | Auditing/Auditing.Api.Domain/Events/DocumentUploadedEvent.cs:20-33 | the upload event as written has a null name and description |
| AuditingEvents.UploadAsWrittenLosesName | Auditing/Auditing.Api.Domain/Events/DocumentUploadedEvent.cs:23-24 | a projection of the upload as written never shows the uploaded name |
| AuditingEvents.NewUploaded | Auditing/Auditing.Api.Domain/Events/DocumentUploadedEvent.cs:20-33 | the intended upload event carries the uploaded name and description |
| AuditingEvents.UploadShowsUpload | Auditing/Auditing.Api.Domain/Entities/Document.cs:40-52 | the projection of a lone intended upload holds every uploaded field, with the upload time set to the event's time |
| AuditingEntity.Auditing.constructor | Auditing/Auditing.Api.Domain/Entities/Document.cs:6-18 | a new entity is the fresh state: null references and default values |
| AuditingEntity.Auditing.Apply | Auditing/Auditing.Api.Domain/Entities/Document.cs:21-38 | dispatching an event in place gives the state the fold's `Apply` gives |
| AuditingEntity.Auditing.ApplyUploaded | Auditing/Auditing.Api.Domain/Entities/Document.cs:40-52 | the upload overload assigns the fields the fold's upload step gives |
| AuditingEntity.Auditing.ApplyUpdated | Auditing/Auditing.Api.Domain/Entities/Document.cs:54-77 | the update overload overwrites only the fields with non-null, non-empty new values, and always stamps time, editor and version |
| AuditingEntity.Auditing.ApplyDeleted | Auditing/Auditing.Api.Domain/Entities/Document.cs:79-86 | the delete overload assigns the fields the fold's delete step gives |
| AuditingEntity.Auditing.ApplyRollback | Auditing/Auditing.Api.Domain/Entities/Document.cs:88-109 | the reset, the replay in `OccurredAt` order and the final stamp give the state of the fold's rollback step |
| AuditingEntity.FromEvents | Auditing/Auditing.Api.Domain/Factories/DocumentFactory.cs:12-19 | the factory returns a new entity whose state is the projection: the events applied to a fresh entity in stable `OccurredAt` order |
| Linq.SortByCorrect | Auditing/Auditing.Api.Domain/Factories/DocumentFactory.cs:15 | `OrderBy(OccurredAt)` yields its input in nondecreasing key order, as a permutation |
| Linq.SortByStable | Auditing/Auditing.Api.Domain/Factories/DocumentFactory.cs:15 | events with equal `OccurredAt` keep their input order |
| Linq.SortByKeepsSorted | Auditing/Auditing.Api.Domain/Factories/DocumentFactory.cs:15 | an input already in key order comes back unchanged |
| Linq.SortByMembers | Auditing/Auditing.Api.Domain/Factories/DocumentFactory.cs:15 | every ordered event comes from the input |
| AuditingStorage.EventsWithId | Auditing/Auditing.Api.Infrastructure/Persistance/DocumentStorage.cs:25-28 | the lookup by id returns exactly the stored events with that id, and no more events than are stored |
| AuditingStorage.EventsWithIdAppend | Auditing/Auditing.Api.Infrastructure/Persistance/DocumentStorage.cs:12-28 | appending an event extends an id's selection by that event when the ids match and leaves it alone otherwise: the selection keeps stored order |
| AuditingStorage.Storage.constructor | Auditing/Auditing.Api.Infrastructure/Persistance/DocumentStorage.cs:7-10 | the store starts with no events over the shared cache |
| AuditingStorage.Storage.AddAuditing | Auditing/Auditing.Api.Infrastructure/Persistance/DocumentStorage.cs:12-18 | the event is appended at the end, the cache is emptied, and the answer is always true |
| AuditingStorage.Storage.GetAuditingList | Auditing/Auditing.Api.Infrastructure/Persistance/DocumentStorage.cs:20-23 | the whole list of stored events, in order |
| AuditingStorage.Storage.GetAuditingById | Auditing/Auditing.Api.Infrastructure/Persistance/DocumentStorage.cs:25-28 | the stored events with the given id, in stored order |
| Cache.CacheService.constructor | Document/Document.Api.Infrastructure/Persistance/CacheService.cs:6-9 | a new cache holds no entries and no recorded keys |
| Cache.CacheService.SetCache | Document/Document.Api.Infrastructure/Persistance/CacheService.cs:11-15 | the value is stored under the key and the key is appended to the recorded keys, so re-setting a key records it twice; every live entry stays recorded |
| Cache.CacheService.TryGetCache | Document/Document.Api.Infrastructure/Persistance/CacheService.cs:17-20 | the lookup succeeds exactly when the key is present, and then yields the stored value |
| Cache.CacheService.InvalidateCaches | Document/Document.Api.Infrastructure/Persistance/CacheService.cs:22-30 | every entry whose key was recorded is removed, the recorded keys are cleared, and since every live entry is recorded the cache ends empty |
| DocumentInfra.StatusIn | Document/Document.Api.Infrastructure/Services/InMemoryDocumentStatusService.cs:10-16 | the status of an id never set is "not_found"; otherwise it is the stored status |
| DocumentInfra.StatusService.constructor | Document/Document.Api.Infrastructure/Services/InMemoryDocumentStatusService.cs:8 | the dictionary starts empty |
| DocumentInfra.StatusService.GetStatus | Document/Document.Api.Infrastructure/Services/InMemoryDocumentStatusService.cs:10-16 | the stored status of the id, or "not_found" when it has none |
| DocumentInfra.StatusService.SetStatus | Document/Document.Api.Infrastructure/Services/InMemoryDocumentStatusService.cs:18-22 | the id's status is overwritten and no other id's status changes |
| DocumentInfra.SetThenGet | Document/Document.Api.Infrastructure/Services/InMemoryDocumentStatusService.cs:12-21 | a status read after it was set is the status set, whatever was stored before |
| DocumentInfra.SetLeavesOthers | Document/Document.Api.Infrastructure/Services/InMemoryDocumentStatusService.cs:20 | setting one id's status leaves every other id's status as it was |
| DocumentInfra.ScanQueue.constructor | Document/Document.Api.Infrastructure/Background/InMemoryDocumentScanQueue.cs:10 | the queue starts empty |
| DocumentInfra.ScanQueue.Enqueue | Document/Document.Api.Infrastructure/Background/InMemoryDocumentScanQueue.cs:12 | the item joins the back of the queue |
| DocumentInfra.ScanQueue.TryDequeue | Document/Document.Api.Infrastructure/Background/InMemoryDocumentScanQueue.cs:14 | on an empty queue false and no change; otherwise true with the front item, which leaves the queue |
| DocumentInfra.ScanQueue.TryPeek | Document/Document.Api.Infrastructure/Background/InMemoryDocumentScanQueue.cs:16 | on an empty queue false; otherwise true with the front item, the one the next dequeue returns, and nothing changes |
| DocumentInfra.ReplayIsFifo | Document/Document.Api.Infrastructure/Background/InMemoryDocumentScanQueue.cs:12-14 | over any sequence of enqueues and dequeues, what was dequeued followed by what is still queued is what was queued followed by what was enqueued: first in, first out |
| DocumentInfra.DocumentStore.AddDocument | Document/Document.Api.Infrastructure/Services/Background/VirusScanBackgroundService.cs:42 | the event is appended exactly when the store accepts it |
| DocumentInfra.ScanOnce | Document/Document.Api.Infrastructure/Services/Background/VirusScanBackgroundService.cs:26-55 | with an empty queue nothing changes; otherwise the front item leaves the queue, its status is written "scanning" and then "clean", "malicious" or "error" as its scan ends, and the store gains the document only when the scan was clean and the store took it; the status is "clean" after a clean scan whatever the store answered |
| DocumentInfra.AdmittedIffClean | Document/Document.Api.Infrastructure/Services/Background/VirusScanBackgroundService.cs:38-49 | a document reaches the store exactly when some item carrying it was scanned clean and the store took it |
| DocumentInfra.StatusIsLastOutcome | Document/Document.Api.Infrastructure/Services/Background/VirusScanBackgroundService.cs:34-55 | after a run of scans, a scanned document's status is the final status of its last scan |
| DocumentInfra.CleanButNotStored | Document/Document.Api.Infrastructure/Services/Background/VirusScanBackgroundService.cs:40-44 | a document whose last scan was clean but which the store refused, and which no scan stored, ends with status "clean" and is not in the store |
| DocumentInfra.StatusOfUnscanned | Document/Document.Api.Infrastructure/Services/Background/VirusScanBackgroundService.cs:34-55 | a run of scans leaves the status of every document it did not scan unchanged |
| DocumentInfra.ExecuteAsync | Document/Document.Api.Infrastructure/Services/Background/VirusScanBackgroundService.cs:22-60 | each iteration processes at most one item: after some rounds exactly that many items (or all of them) have left the queue in order, with the statuses their scans give and only the documents scanned clean and taken by the store stored |
| DocumentQueries.FoldGroup | Document/Document.Api.Entities/Documents/GetDocuments.cs:56-58 | a group's document is the fresh document with the group's events applied in stable `OccurredAt` order |
| DocumentQueries.GetDocuments | Document/Document.Api.Entities/Documents/GetDocuments.cs:49-69 | the answer is the requested page of the one-document-per-event-id list, its offset computed in 32-bit arithmetic, with that list's full length as the total |
| DocumentQueries.AllDocumentsAreGroupFolds | Document/Document.Api.Entities/Documents/GetDocuments.cs:52-61 | every listed document is the fold of all the events that share one event id |
| DocumentQueries.DocumentsPageFacts | Document/Document.Api.Entities/Documents/GetDocuments.cs:51-68 | for an accepted request the total counts the distinct event ids, the page holds at most the page size, empty storage gives an empty page and total 0, and each item folds one id's events; no group is left out for being deleted |
| DocumentQueries.SameIdOneDocument | Document/Document.Api.Entities/Documents/GetDocuments.cs:52-61 | two events with the same id make exactly one document, the fold of both |
| DocumentQueries.OwnedBy | Document/Document.Api.Entities/Documents/GetDocumentById.cs:60-80 | the caller gets the document exactly when they own it; anyone else gets NotFound with the fixed message |
| DocumentQueries.EventsOf | Document/Document.Api.Entities/Documents/GetDocumentById.cs:66 | the events selected for a document are exactly the stored events with that document id |
| DocumentQueries.GetDocumentById | Document/Document.Api.Entities/Documents/GetDocumentById.cs:52-81 | the answer and the new cache are those of the lookup: a hit answers from the cache with the owner check; a miss folds the document's events, caches the result under the document's key, then checks the owner |
| DocumentQueries.LookupCachesBeforeOwnerCheck | Document/Document.Api.Entities/Documents/GetDocumentById.cs:66-80 | on a miss the folded document is cached even when the caller is refused, the caller is served exactly when they own it, and a second lookup gives the same answer and leaves the cache as it is |
| DocumentQueries.LiveGroupIffNoDelete | Document/Document.Api.Entities/Documents/ExistsDocumentByUserId.cs:28-40 | a document's events are kept exactly when there are some and none of them is a delete event |
| DocumentQueries.CollectLiveDocuments | Document/Document.Api.Entities/Documents/ExistsDocumentByUserId.cs:27-47 | the loop builds exactly the folds of the groups, by document id, that have no delete event, in group order |
| DocumentQueries.FoldLiveGroups | Document/Document.Api.Entities/Documents/ExistsDocumentByUserId.cs:32-47 | the `foreach` skips every group holding a delete event and appends the fold of each other group, in group order |
| DocumentQueries.LiveFoldsAreListed | Document/Document.Api.Entities/Documents/ExistsDocumentByUserId.cs:28-47 | the one-group-at-a-time list equals the folds of the groups without a delete event, selected and then mapped |
| DocumentQueries.ExistsDocumentByUserIdAsWritten | Document/Document.Api.Entities/Documents/ExistsDocumentByUserId.cs:23-52 | the answer as written: whether any live document exists, whoever owns it |
| DocumentQueries.ExistsDocumentByUserId | Document/Document.Api.Entities/Documents/ExistsDocumentByUserId.cs:23-52 | the answer as intended: whether the requested user owns a live document |
| DocumentQueries.ExistsForUserImpliesAsWritten | Document/Document.Api.Entities/Documents/ExistsDocumentByUserId.cs:27-51 | the intended answer holds exactly when some live document belongs to the user, and then the written answer is true as well |
| DocumentQueries.ExistsAsWrittenAnswersForAnyone | Document/Document.Api.Entities/Documents/ExistsDocumentByUserId.cs:23-51 | one live upload by user 1 makes the written query say that user 2 has documents, which the intended query denies |
| DocumentQueries.DeleteTargetsExact | Document/Document.Api.Entities/Documents/DeleteDocumentByUserId.cs:57-76 | a document id is deleted exactly when a live document with that id belongs to the user and its blob step, if there is one, did not throw |
| DocumentQueries.DeleteDocumentByUserId | Document/Document.Api.Entities/Documents/DeleteDocumentByUserId.cs:27-81 | with no events nothing is deleted; otherwise the deleted ids are the user's live documents whose blob step did not throw, the blob prefix deletion is tried only outside "Test" with blob storage, a failure skips that document only, and the events are untouched |
| DocumentQueries.DeleteOwned | Document/Document.Api.Entities/Documents/DeleteDocumentByUserId.cs:57-76 | over the live documents in order, each one the user owns has its blob prefix deleted when the blob step runs and is deleted from storage unless that step threw; the event list is unchanged |
| DocumentQueries.Reapply | Document/Document.Api.Entities/Documents/RolebackDocument.cs:67 | the events to reapply are exactly the document's events with a version at most the requested one; null versions are left out |
| DocumentQueries.RolebackDocument | Document/Document.Api.Entities/Documents/RolebackDocument.cs:65-73 | the rollback event, carrying the requested id and version, the caller and the events to reapply, is appended when the store accepts it; the answer is the id, or the Failure "something went wrong trying so save the file." |
| DocumentQueries.ReapplyMonotone | Document/Document.Api.Entities/Documents/RolebackDocument.cs:67 | a higher requested version never reapplies fewer events |
| DocumentQueries.RollbackValidation | Document/Document.Api.Entities/Documents/RolebackDocument.cs:46-56 | the intended rollback rule fails exactly when the document's events include a delete, with the "previously been deleted" message |
| DocumentQueries.RollbackOfDeletedDocument | Document/Document.Api.Entities/Documents/RolebackDocument.cs:38-51 | as written (the validator is typed on the update query) a rollback of a deleted document reaches its handler; as intended it is answered with the deletion validation error |
| AuditingQueries.EmptyPage | Auditing/Auditing.Api.Entities/Documents/GetDocuments.cs:60 | a cached null stands for the page with no items and a total of 0 for the requested page number and size |
| AuditingQueries.CollectAuditings | Auditing/Auditing.Api.Entities/Documents/GetDocuments.cs:63-76 | the loop builds exactly one folded entity per id group that is shown: one with no delete event, or any group when deleted entities were asked for |
| AuditingQueries.FoldShownGroups | Auditing/Auditing.Api.Entities/Documents/GetDocuments.cs:63-76 | the `foreach` skips a group holding a delete event unless deleted entities were asked for, and appends the fold of each other group, in group order |
| AuditingQueries.ShownFoldsAreListed | Auditing/Auditing.Api.Entities/Documents/GetDocuments.cs:64-76 | the one-group-at-a-time list equals the folds of the shown groups, selected and then mapped |
| AuditingQueries.GetAuditings | Auditing/Auditing.Api.Entities/Documents/GetDocuments.cs:55-87 | the answer and the new cache are those of the page lookup: a hit answers the cached page (the empty page for null) without reading storage; a miss computes the page, its offset in 32-bit arithmetic, and caches it once under the key of page number, page size and the deleted flag |
| AuditingQueries.AuditingsAreGroupFolds | Auditing/Auditing.Api.Entities/Documents/GetDocuments.cs:64-76 | every listed entity is the fold of one shown id group |
| AuditingQueries.AuditingsPageFacts | Auditing/Auditing.Api.Entities/Documents/GetDocuments.cs:78-82 | for an accepted request the page holds at most page size entities, each the fold of one shown group; the total is the number of shown groups and not the page length; empty storage gives an empty page with total 0 |
| AuditingQueries.DeletedGroupHiddenUnlessAsked | Auditing/Auditing.Api.Entities/Documents/GetDocuments.cs:68-69 | an id's events are listed exactly when there are some and either deleted entities were asked for or none of them is a delete event |
| AuditingQueries.SameIdOneAuditing | Auditing/Auditing.Api.Entities/Documents/GetDocuments.cs:64-76 | two undeleted events with the same id make exactly one entity, the fold of both |
| AuditingQueries.PageLookupCachesOnce | Auditing/Auditing.Api.Entities/Documents/GetDocuments.cs:57-84 | a miss answers the computed page and caches it under its key; a hit leaves the cache alone and answers the cached page or the empty page; asking again answers the same and changes nothing |
| AuditingQueries.GetAuditingById | Auditing/Auditing.Api.Entities/Documents/GetDocumentById.cs:53-70 | the answer and the new cache are those of the entity lookup: a hit answers the cached entity without reading storage; a miss folds the id's events in `OccurredAt` order and caches the result once |
| AuditingQueries.LookupAuditingCachesOnce | Auditing/Auditing.Api.Entities/Documents/GetDocumentById.cs:55-69 | a miss answers the fold of exactly the events with that id and caches it; a second lookup answers the same entity and leaves the cache as it is |
| AuditingQueries.LookupOfUnknownIdIsFresh | Auditing/Auditing.Api.Entities/Documents/GetDocumentById.cs:61-69 | an id no event carries yields a freshly constructed entity, not an error |
| AuditingQueries.ReapplyAuditing | Auditing/Auditing.Api.Entities/Documents/RolebackDocument.cs:64 | the events to reapply are exactly the stored events with the id and a version at most the requested one; null versions are left out |
| AuditingQueries.RolebackAuditing | Auditing/Auditing.Api.Entities/Documents/RolebackDocument.cs:62-70 | the rollback event with the requested id and version, the caller and the events to reapply is appended, the cache is emptied, and the answer is the id |
| AuditingQueries.RollbackValidation | Auditing/Auditing.Api.Entities/Documents/RolebackDocument.cs:43-53 | the intended rollback rule fails exactly when the id's events include a delete, with the "previously been deleted" message |
| AuditingQueries.RollbackResurrectsDeleted | Auditing/Auditing.Api.Entities/Documents/RolebackDocument.cs:35-64 | as written, rolling back an uploaded-then-deleted entity reaches the handler and, since the delete has a null version, replays only the upload, bringing the deleted file back; as intended the rollback is refused with the deletion error |
| AuditingQueries.UpdateFailures | Auditing/Auditing.Api.Entities/Documents/UpdateDocument.cs:49-64 | the update is valid exactly when the id has no delete event and the scanner reports the file clean; each broken rule contributes its own message |
| AuditingQueries.ResolvedUpdateFailures | Auditing/Auditing.Api.Entities/Documents/RolebackDocument.cs:35-49 | the resolved validator passes exactly when the entity has no delete event and, for the update's own validator only, the scanner reports the file clean; a deleted entity always gets the deletion message |
| AuditingQueries.UpdateAuditing | Auditing/Auditing.Api.Entities/Documents/UpdateDocument.cs:73-80 | the update event, with the request's fields, an empty file URL and the caller, is appended, the cache is emptied, and the answer is the request id |
| AuditingQueries.UpdatePipeline | Auditing/Auditing.Api.Entities/Documents/UpdateDocument.cs:39-80 | whichever of the two registered validators is resolved, an update reaches the handler and is answered with its id exactly when that validator passes, and a deleted entity is refused with the "previously been deleted" message; under the update's own validator a file the scanner rejects yields the malicious-file validation error |
| AuditingQueries.MaliciousUpdateStoredUnderRollbackRules | Auditing/Auditing.Api.Entities/Documents/RolebackDocument.cs:35-49 | when the rollback validator is the one resolved for the update query, an update of a live entity with a file the scanner rejects reaches the handler and is stored |
| Validation.PageRequestFailures | Auditing/Auditing.Api.Entities/Documents/GetDocuments.cs:35-46 | a page request is valid exactly when page number and page size are at least 1, each failing rule with its own message |
| Saga.DocumentReply | Document/Document.Api.Infrastructure/Services/Background/DocumentSagaHandler.cs:41-98 | a prepare command or a delete command gets exactly one reply and any other message none; every reply goes to "document_to_user_queue" with the incoming saga id and user id; a prepare is acknowledged, a delete answers DeleteFailed when the deletion returned an error and DeleteSucceeded otherwise |
| Saga.PrepareIgnoresExistence | Document/Document.Api.Infrastructure/Services/Background/DocumentSagaHandler.cs:62-77 | the acknowledgement of a prepare command does not depend on whether the user has documents |
| Saga.DocumentApiSaga.OnUserMessageReceived | Document/Document.Api.Infrastructure/Services/Background/DocumentSagaHandler.cs:41-98 | the published messages grow by exactly the reply `DocumentReply` gives |
| Saga.Complete | User/User.Api.Infrastructure/Services/DataDeletionSaga.cs:88-95 | completing a saga sets its result only the first time and touches no other saga |
| Saga.Start | User/User.Api.Infrastructure/Services/DataDeletionSaga.cs:30-52 | starting a saga registers it for the user and publishes one PrepareDeleteCommand for it on "user_to_document_queue" |
| Saga.ReceiveCases | User/User.Api.Infrastructure/Services/DataDeletionSaga.cs:70-99 | a message for no running saga changes nothing; an acknowledgement sends the delete command for the saga's own user and keeps the saga; a success whose save goes through, or that finds no user, deletes that user, completes with true and ends the saga; a success whose save throws changes nothing, so the saga stays running and uncompleted; a failure completes with false, ends the saga and keeps the user; the user id the message carries is never used |
| Saga.RemoveUser | User/User.Api.Infrastructure/Services/DataDeletionSaga.cs:114-126 | the user is removed exactly when present and the save returns; the save runs only when the user is present, and when it throws the users are unchanged and the failure is reported |
| Saga.FailedSaveEndsByTimeout | User/User.Api.Infrastructure/Services/DataDeletionSaga.cs:55-99 | when the user's save throws on a DeleteSucceeded, the user and the saga both stay and nothing is completed, so the wait ends only by the timeout, which answers false with the user still present |
| Saga.EndedSagaIgnoresMessages | User/User.Api.Infrastructure/Services/DataDeletionSaga.cs:72-97 | once a saga has failed, or succeeded with its save done, every later message for it is ignored: it completes at most once |
| Saga.TimeoutEndsSaga | User/User.Api.Infrastructure/Services/DataDeletionSaga.cs:55-67 | a saga that times out answers false, is removed, keeps the user, and ignores the late replies |
| Saga.HappyPath | User/User.Api.Infrastructure/Services/DataDeletionSaga.cs:30-97 | when both services answer in turn and the user's save returns, the user is gone, the saga answers true and is removed, and the User side published exactly the prepare and the delete command; `UserDeletion.SagaOutcomeFollowsSave` shows that as written that save never returns for a present user |
| UserDeletion.RemovedUser | User/User.Api.Domain/Entities/User.cs:8 | `Remove` of a loaded user leaves a soft deletion of that key, without user data |
| UserDeletion.Outcome | User/User.Api.Entities/Users/DeleteUser.cs:56-69 | a save that sends its commands is `Saved`; one that throws is `SaveThrew` with the exception's message |
| UserDeletion.RemovalSave | User/User.Api.Infrastructure/Persistance/ShadowContext.cs:119-130 | whoever is signed in, saving a removed user throws as written, and the corrected save sends one update that keeps the row with its flag set |
| UserDeletion.DeleteUserThrowsAsWritten | User/User.Api.Entities/Users/DeleteUser.cs:53-69 | for a user who is present, the save taken from the context as written makes DeleteUser answer the unexpected error and keep every user; the corrected save removes that user |
| UserDeletion.SagaOutcomeFollowsSave | User/User.Api.Infrastructure/Services/DataDeletionSaga.cs:110-121 | for a user who is present, the whole saga with the save taken from the context as written answers false at the timeout and keeps the user; with the corrected save it answers true and the user is gone |
| Saga.AbsentUserUnchanged | User/User.Api.Infrastructure/Services/DataDeletionSaga.cs:114-126 | deleting a user who is not in the database leaves the users as they are |
| Saga.UserApiSaga.constructor | User/User.Api.Infrastructure/Services/DataDeletionSaga.cs:17-28 | no saga runs and nothing is published at start |
| Saga.UserApiSaga.StartDeleteSaga | User/User.Api.Infrastructure/Services/DataDeletionSaga.cs:30-52 | the state after the start is that of `Start` |
| Saga.UserApiSaga.AwaitSaga | User/User.Api.Infrastructure/Services/DataDeletionSaga.cs:55-67 | the wait answers the saga's result once completed, or false after removing the saga when it timed out |
| Saga.UserApiSaga.DeleteUserData | User/User.Api.Infrastructure/Services/DataDeletionSaga.cs:114-126 | the users and the reported outcome are those of `RemoveUser`: the user is removed when present and the save returns, and a throwing save removes nothing; sagas, messages and completions do not change |
| Saga.UserApiSaga.OnDocumentMessageReceived | User/User.Api.Infrastructure/Services/DataDeletionSaga.cs:70-99 | the state after a reply, with the given outcome of the user's save, is that of `Receive` |
| UserStore.NewUser | User/User.Api.Domain/Entities/User.cs:20-38 | a new user has the given id, name, email and password hash, no failed login attempts, and its last failure at the minimum date |
| UserStore.Revoke | User/User.Api.Infrastructure/Services/JwtTokenGenerator.cs:71-78 | every token of the user is revoked afterwards, other users' tokens are unchanged, and the only field that changes is `IsRevoked` |
| UserStore.Issued | User/User.Api.Infrastructure/Services/JwtTokenGenerator.cs:57-63 | the new token is live, unused, carries the given text, and expires seven days after its creation |
| UserStore.Rotate | User/User.Api.Infrastructure/Services/JwtTokenGenerator.cs:50-63 | one token is added, and afterwards the new token is the user's only live token; other users' tokens are untouched and old tokens change at most in `IsRevoked` |
| UserStore.UserDatabase.constructor | User/User.Api.Domain/Entities/User.cs:40 | the users and tokens are the ones given |
| UserStore.RefreshTokenGenerator.constructor | User/User.Api.Infrastructure/Services/JwtTokenGenerator.cs:39 | the generator works on the context it was given |
| UserStore.RefreshTokenGenerator.GenerateRefreshToken | User/User.Api.Infrastructure/Services/JwtTokenGenerator.cs:41-44 | the token is the standard base 64 text of the 64 random bytes: 88 characters ending in "==" that decode back to those bytes |
| UserStore.RefreshTokenGenerator.RevokeOldRefreshToken | User/User.Api.Infrastructure/Services/JwtTokenGenerator.cs:71-81 | the tokens afterwards are `Revoke` of the old tokens, and the users are unchanged |
| UserStore.RefreshTokenGenerator.GenerateAndStoreRefreshToken | User/User.Api.Infrastructure/Services/JwtTokenGenerator.cs:46-68 | the returned text is the generated token, the tokens afterwards are `Rotate` of the old tokens, and the users are unchanged |
| Authentication.FailedAttempt | User/User.Api.Entities/Authentication/Login.cs:59-64 | a wrong password adds one failed attempt and records its time; no other field changes |
| Authentication.SuccessfulAttempt | User/User.Api.Entities/Authentication/Login.cs:67-68 | a good password clears the failed attempts and the time of the last failure, so the account is not locked at any time |
| Authentication.Attempt | User/User.Api.Entities/Authentication/Login.cs:56-76 | a locked account is refused with "Too many failed login attemtps." and nothing changes; otherwise a wrong password is refused with "Invalid credentials." and counted; the login succeeds exactly when the account is not locked and the password is valid, and then it answers the access token and the new refresh token, clears the user's failures and rotates the user's refresh tokens |
| Authentication.UnknownEmail | User/User.Api.Entities/Authentication/Login.cs:50-54 | when no user has the lower-cased email, the handler as written throws, while the corrected login answers "Invalid credentials." and changes nothing |
| Authentication.KnownEmailAgrees | User/User.Api.Entities/Authentication/Login.cs:50-54 | whenever the handler as written returns, the corrected login gives the same state |
| Authentication.LockoutSpacesGuesses | User/User.Api.Entities/Authentication/Login.cs:56-64 | in any run of wrong passwords, the attempt counter equals the number of passwords actually checked, and after the first three each check comes at least five minutes after the previous one |
| Authentication.ThreeStrikes | User/User.Api.Entities/Authentication/Login.cs:56-62 | three wrong passwords in a row lock the account for the five minutes after the last of them |
| Authentication.LoginHandler | User/User.Api.Entities/Authentication/Login.cs:48-77 | the outcome, the users and the refresh tokens afterwards are those of `LoginAsWritten` |
| Authentication.Redeem | User/User.Api.Entities/Authentication/RefreshToken.cs:56-62 | a refresh answers a new access token for the token's user and the new refresh token; it marks the presented token used (and, by the rotation, revoked) and adds the new token |
| Authentication.ReplayedRefreshToken | User/User.Api.Entities/Authentication/RefreshToken.cs:48-62 | a refresh token that was redeemed once is accepted again by the handler as written; the corrected refresh refuses it with "Invalid refresh token" and changes nothing |
| Authentication.RefreshOnlyRedeemable | User/User.Api.Entities/Authentication/RefreshToken.cs:48-62 | with the intended check, a string that finds a revoked, used or expired token never yields new tokens and leaves the stored tokens unchanged; when every token it finds is redeemable, the refresh is the handler as written |
| Authentication.RefreshHandler | User/User.Api.Entities/Authentication/RefreshToken.cs:46-63 | the users stay the same, and the outcome and the refresh tokens afterwards are those of `RefreshAsWritten` |
| UserCommands.IndexOf | User/User.Api.Entities/Users/CreateUser.cs:57 | the first position of the character, or -1 exactly when it does not occur |
| UserCommands.LastIndexOf | User/User.Api.Entities/Users/CreateUser.cs:57 | the last position of the character, or -1 exactly when it does not occur |
| UserCommands.EmailAddressShape | User/User.Api.Entities/Users/CreateUser.cs:57-58 | an email passes the address rule exactly when it holds one '@' with at least one character on either side |
| UserCommands.EmailAddressOf | User/User.Api.Entities/Users/CreateUser.cs:57-58 | a non-empty local part and domain without '@', joined by '@', pass the address rule |
| UserCommands.PasswordFailures | User/User.Api.Entities/Users/CreateUser.cs:62-66 | the password chain reports nothing exactly when the password is not blank, has at least 15 UTF-16 code units, and holds an upper-case and a lower-case letter; every failure names the password property |
| UserCommands.ShortPasswordRefused | User/User.Api.Entities/Users/CreateUser.cs:64-90 | a password of 12 to 14 UTF-16 code units with both cases fails only the length rule, whose message promises 12 |
| UserCommands.UsernameFailures | User/User.Api.Entities/Users/CreateUser.cs:51-54 | the username chain reports nothing exactly when the name is not blank and has 4 to 50 UTF-16 code units; it reports "A username is required" exactly when the name is blank and the length message (as formatted, "between 0 and 0") exactly when the length is outside 4 to 50, and nothing else; a null name gets only the first |
| UserCommands.DigitsValueOfDecimal | User/User.Api.Entities/Users/CreateUser.cs:77 | reading back the decimal text an interpolated `int` gets gives that number |
| UserCommands.LengthMessageStatesBounds | User/User.Api.Entities/Users/CreateUser.cs:77 | two length messages about the same subject are equal exactly when they state the same minimum and maximum |
| UserCommands.LengthMessagesAsWritten | User/User.Api.Entities/Users/CreateUser.cs:76-87 | the username and email length messages, built before the bounds they interpolate are initialised, state the bounds 0 and 0 and no others |
| UserCommands.ShortUsernameMessageAsWritten | User/User.Api.Entities/Users/CreateUser.cs:51-54 | the username "abc" is refused with the one failure "A username needs to be between 0 and 0 characters." |
| UserCommands.IntendedLengthMessages | User/User.Api.Entities/Users/CreateUser.cs:76-87 | the intended messages state exactly the bounds the rules check (4 and 50, 4 and 100), and differ from the messages the program produces |
| UserCommands.TwoEmojiUsernameAccepted | User/User.Api.Entities/Users/CreateUser.cs:51-54 | a username of two emoji outside the Basic Multilingual Plane has length 4 and passes the username rules |
| UserCommands.EmailFailures | User/User.Api.Entities/Users/CreateUser.cs:56-60 | the email chain reports nothing exactly when the email is an address of 4 to 100 UTF-16 code units; it reports "Supplied email is invalid" exactly when it is no address and the length message (as formatted, "between 0 and 0") exactly when its length is outside 4 to 100, and nothing else; a null email passes |
| UserCommands.CreateUserFailures | User/User.Api.Entities/Users/CreateUser.cs:45-71 | the create validator reports nothing exactly when the name and the email are unused, the name is valid, the email is valid and the password meets the policy; failures name only the username, email or password |
| UserCommands.UpdateUserFailuresAsWritten | User/User.Api.Entities/Users/UpdateUser.cs:51-60 | as written, an update without a username always fails with "A username is required" |
| UserCommands.UpdateUserFailures | User/User.Api.Entities/Users/UpdateUser.cs:51-71 | the corrected update validator reports nothing exactly when the given name and email are unused, a given name is valid, and the email, when given, is a valid address; with a username it agrees with the validator as written |
| UserCommands.EmailOnlyUpdate | User/User.Api.Entities/Users/UpdateUser.cs:41-60 | a valid, unused email alone never reaches the handler as written, and is let through by the corrected validator |
| UserCommands.ChangePasswordFailures | User/User.Api.Entities/Users/ChangePassword.cs:46-50 | the change-password validator reports nothing exactly when the password meets the policy |
| UserCommands.CreateUser | User/User.Api.Entities/Users/CreateUser.cs:103-117 | the creation succeeds exactly when the save does, and answers the new user's id with that user appended, its password hashed; a failed save answers an unexpected error with its message and changes nothing |
| UserCommands.CreatedUserFound | User/User.Api.Entities/Users/CreateUser.cs:107-111 | a user created under a fresh id is the single user found by that id, with no failed logins |
| UserCommands.CreateUserHandler | User/User.Api.Entities/Users/CreateUser.cs:103-117 | the result and the users afterwards are those of `CreateUser`, and the refresh tokens do not change |
| UserCommands.GivesUpAfterThreeConflicts | User/User.Api.Entities/Users/UpdateUser.cs:105-139 | the update gives up exactly when each of its three saves loses to a concurrent writer |
| UserCommands.CommitsAfterConflicts | User/User.Api.Entities/Users/UpdateUser.cs:108-140 | the update commits exactly when one of the saves that are left succeeds after concurrency conflicts only |
| UserCommands.FailsOnThrownSave | User/User.Api.Entities/Users/UpdateUser.cs:108-144 | the retries fail with a message exactly when the save that throws it comes, among the first three, after concurrency conflicts only |
| UserCommands.UpdateSaveErrors | User/User.Api.Entities/Users/UpdateUser.cs:127-144 | for the one current user and a field to set, three conflicting saves answer "The user was updated by another process. Please retry." and a save that throws after conflicts answers the unexpected error with its message, the users unchanged either way |
| UserCommands.Updated | User/User.Api.Entities/Users/UpdateUser.cs:121-125 | a non-empty name replaces the name, a non-empty email replaces the email lower-cased, and nothing else changes |
| UserCommands.UpdateUser | User/User.Api.Entities/Users/UpdateUser.cs:103-146 | the update succeeds exactly when the current user is found, a name or email is given and a save commits, and then only that user is updated; a missing user gives "User not found", two users the lookup's unexpected error, no name and no email "Either a username or email must be provided."; when the saves give up after three conflicts the answer is the conflict error, and when a save throws it is the unexpected error with that save's message; every failure leaves the users as they were |
| UserCommands.ToLowerIdempotent | User/User.Api.Entities/Users/UpdateUser.cs:125 | lower-casing twice is lower-casing once |
| UserCommands.UpdateTouchesOnlyCurrentUser | User/User.Api.Entities/Users/UpdateUser.cs:112-129 | after a successful update, other users are unchanged, every id is kept, and a given email is stored lower-cased |
| UserCommands.UpdateUserHandler | User/User.Api.Entities/Users/UpdateUser.cs:103-146 | the result and the users afterwards are those of `UpdateUser`, and the refresh tokens do not change |
| UserCommands.ChangePassword | User/User.Api.Entities/Users/ChangePassword.cs:67-100 | as intended: no current user gives the "id is required" validation error; a user not found exactly once gives the lookup's unexpected error, never "User not found"; a success has validated any old password given against the stored hash and stores only the new hash; every failure leaves the users as they were |
| UserCommands.ChangePasswordAsWritten | User/User.Api.Entities/Users/ChangePassword.cs:67-100 | as written: the same answers, except that a given old password passes only when hashing it again gives exactly the stored string |
| UserCommands.ChangeWithoutOldPasswordAgrees | User/User.Api.Entities/Users/ChangePassword.cs:78-94 | without an old password the change as written and as intended give the same answer and users |
| UserCommands.RightOldPasswordRefusedAsWritten | User/User.Api.Entities/Users/ChangePassword.cs:78-81 | a right old password whose fresh salted hash differs from the stored one is refused as written with "The passwords do not match.", and accepted by the intended check |
| UserCommands.OldPasswordGuardsChange | User/User.Api.Entities/Users/ChangePassword.cs:78-87 | with an old password given, the intended change succeeds exactly when it validates against the stored hash; then the user keeps its id and has the new hash, and otherwise the users do not change |
| UserCommands.ChangePasswordHandler | User/User.Api.Entities/Users/ChangePassword.cs:67-100 | the result and the users afterwards are those of `ChangePasswordAsWritten`, and the refresh tokens do not change |
| UserCommands.DeleteUser | User/User.Api.Entities/Users/DeleteUser.cs:43-70 | no current user or the empty id gives "A valid user ID is required."; the deletion succeeds exactly when the user is found once and the save succeeds, and then the users are the old ones without that id; no such user gives "User not found.", two users or a throwing save the fixed unexpected-error message, a concurrency conflict "The user was modified or deleted by another process."; every failure leaves the users as they were |
| UserCommands.RemoveMatch | User/User.Api.Entities/Users/DeleteUser.cs:50-56 | removing the only user with the id is keeping the users with any other id |
| UserCommands.DeleteUserHandler | User/User.Api.Entities/Users/DeleteUser.cs:43-70 | the result and the users afterwards are those of `DeleteUser`, and the refresh tokens do not change |
| Persistence.CommandOf | User/User.Api.Infrastructure/Persistance/ShadowContext.cs:25-35 | added entries are inserted, modified ones updated, deleted ones deleted by key, and unchanged or detached entries send nothing |
| Persistence.Commands | User/User.Api.Infrastructure/Persistance/ShadowContext.cs:25-35 | the commands sent are exactly those of the entries, at most one per entry |
| Persistence.Detach | User/User.Api.Infrastructure/Persistance/ShadowContext.cs:119-129 | every soft deletion is flagged and detached, and every other entry is kept |
| Persistence.SoftDeleted | User/User.Api.Infrastructure/Persistance/ShadowContext.cs:119-129 | every soft deletion is flagged and becomes an update, every other entry is kept, and no soft deletion is left |
| Persistence.Stamped | User/User.Api.Infrastructure/Persistance/ShadowContext.cs:131-146 | added entries with user data get the user as their creator, modified ones as their last updater, and every other entry is kept |
| Persistence.Prepared | User/User.Api.Infrastructure/Persistance/ShadowContext.cs:19-36 | without a signed-in user no user-data property is written; an entry that is neither a soft deletion nor in need of user data reaches the save unchanged |
| Persistence.SaveAsWritten | User/User.Api.Infrastructure/Persistance/ShadowContext.cs:119-146 | as written, the save throws exactly when some entry is a soft deletion, or, with a signed-in user, some entry needs user data; otherwise it sends the entries' commands unchanged |
| Persistence.SoftDeletionKeepsRow | User/User.Api.Infrastructure/Persistance/ShadowContext.cs:119-129 | a soft-deleted entity's row is updated with the flag set, and the only rows deleted are those of entities that cannot be soft-deleted |
| Persistence.StampsSignedInUser | User/User.Api.Infrastructure/Persistance/ShadowContext.cs:131-146 | with a signed-in user, every inserted row with user data names the user as its creator and every updated one as its last updater |
| Persistence.DetachDropsSoftDeletions | User/User.Api.Infrastructure/Persistance/ShadowContext.cs:124-128 | detaching the soft deletions removes their commands and keeps the others in order: neither the delete nor the flag reaches the database |
| Persistence.CommandsConcat | User/User.Api.Infrastructure/Persistance/ShadowContext.cs:25 | the commands of two runs of entries are those of each run, in order |
| Persistence.SoftDeleteOfOneEntity | User/User.Api.Infrastructure/Persistance/ShadowContext.cs:119-129 | for one soft-deleted entity, the save as written throws, the base save would delete its row, detaching sends nothing, and the corrected save sends one update with the flag set |
| Persistence.StampThrowsAsWritten | User/User.Api.Infrastructure/Persistance/ShadowContext.cs:131-146 | as written, saving a new entity with user data while a user is signed in throws, while the corrected save inserts it with the user as its creator |
| Persistence.ShadowContext.constructor | User/User.Api.Infrastructure/Persistance/ShadowContext.cs:8-10 | the context keeps the signed-in user and the tracked entries |
| Persistence.ShadowContext.UpdateSoftDeletePropertiesAsWritten | User/User.Api.Infrastructure/Persistance/ShadowContext.cs:119-129 | as written, the pass throws exactly when some entry is a soft deletion |
| Persistence.ShadowContext.DetachSoftDeleted | User/User.Api.Infrastructure/Persistance/ShadowContext.cs:119-129 | the entries afterwards are `Detach` of the old entries |
| Persistence.ShadowContext.MarkSoftDeleted | User/User.Api.Infrastructure/Persistance/ShadowContext.cs:119-129 | the entries afterwards are `SoftDeleted` of the old entries |
| Persistence.ShadowContext.UpdateUserDataAsWritten | User/User.Api.Infrastructure/Persistance/ShadowContext.cs:131-146 | as written, the pass throws exactly when some entry needs user data |
| Persistence.ShadowContext.UpdateUserData | User/User.Api.Infrastructure/Persistance/ShadowContext.cs:131-146 | the entries afterwards are `Stamped` of the old entries with the signed-in user |
| Persistence.ShadowContext.SaveChangesAsWritten | User/User.Api.Infrastructure/Persistance/ShadowContext.cs:19-36 | the answer is that of `SaveAsWritten` on the tracked entries |
| Persistence.ShadowContext.SaveChanges | User/User.Api.Infrastructure/Persistance/ShadowContext.cs:19-36 | the entries afterwards are `Prepared` of the old ones, and the commands sent are theirs |
| Base64.Value | DocumentFrontend/Services/ApiAuthenticationStateProvider.cs:61 | a character with a value reads back, through the digit function, as itself, and its value is below 64 |
| Base64.ValueOfDigit | DocumentFrontend/Services/ApiAuthenticationStateProvider.cs:61 | every 6-bit value's digit reads back as that value, so an alphabet's digits are distinct |
| Base64.Encode | User/User.Api.Infrastructure/Services/JwtTokenGenerator.cs:43 | the encoding takes four characters for each group of up to three bytes |
| Base64.EncodeLength | User/User.Api.Infrastructure/Services/JwtTokenGenerator.cs:43 | the encoding of n bytes has 4 * ceil(n / 3) characters |
| Base64.DecodeEncode | DocumentFrontend/Services/ApiAuthenticationStateProvider.cs:61 | decoding gives back the bytes that were encoded, for every byte sequence and either alphabet |
| Base64.DecodeGroupsEncode | DocumentFrontend/Services/ApiAuthenticationStateProvider.cs:61 | the digit groups of an encoding decode to the bytes encoded |
| Base64.SkipSpace | DocumentFrontend/Services/ApiAuthenticationStateProvider.cs:61 | skipping white space leaves no space, shortens nothing else, and leaves text without white space unchanged |
| Base64.SkipSpaceConcat | DocumentFrontend/Services/ApiAuthenticationStateProvider.cs:61 | skipping white space distributes over concatenation |
| Base64.SkipSpaceOfSpace | DocumentFrontend/Services/ApiAuthenticationStateProvider.cs:61 | text made only of white space skips to nothing |
| Base64.DecodeIgnoresSpace | DocumentFrontend/Services/ApiAuthenticationStateProvider.cs:61 | white space inserted anywhere does not change what the text decodes to |
| Base64.EncodeHasNoSpace | User/User.Api.Infrastructure/Services/JwtTokenGenerator.cs:43 | an encoding holds no white space |
| Base64.PaddingByRemainder | DocumentFrontend/Services/ApiAuthenticationStateProvider.cs:56-60 | the padding is none, two '=' or one '=' as the byte count is 0, 1 or 2 modulo 3 |
| Base64.EncodePadding | User/User.Api.Infrastructure/Services/JwtTokenGenerator.cs:43 | an encoding is digits followed by exactly the padding its byte count calls for |
| Base64.Unpadded | DocumentFrontend/Services/ApiAuthenticationStateProvider.cs:46-48 | a token segment is the encoding with its padding dropped: it holds no '=' and no '.', and putting the padding back gives the encoding |
| JwtClaims.Split | DocumentFrontend/Services/ApiAuthenticationStateProvider.cs:47 | splitting gives at least one piece, and no piece holds the separator |
| JwtClaims.TokenSegments | DocumentFrontend/Services/ApiAuthenticationStateProvider.cs:47 | the pieces of a compact token split at '.' are its header, payload and signature, in that order |
| JwtClaims.RestorePadding | DocumentFrontend/Services/ApiAuthenticationStateProvider.cs:54-60 | the segment is kept as a prefix and at most two '=' are appended; unless its length is 1 modulo 4, the result's length is a multiple of four |
| JwtClaims.RestoresEncoding | DocumentFrontend/Services/ApiAuthenticationStateProvider.cs:54-60 | restoring the padding of an unpadded encoding gives back the padded encoding |
| JwtClaims.StateOf | DocumentFrontend/Services/ApiAuthenticationStateProvider.cs:16-52 | a missing or blank token gives the anonymous principal; otherwise the state is there exactly when the payload decodes and its JSON parses, and the principal then carries the parsed claims |
| JwtClaims.PayloadOfToken | DocumentFrontend/Services/ApiAuthenticationStateProvider.cs:44-61 | the corrected reading gives back the bytes of every compact token's payload |
| JwtClaims.UrlSafePayloadThrowsAsWritten | DocumentFrontend/Services/ApiAuthenticationStateProvider.cs:54-61 | a payload segment "-w", the base64url text of the byte 0xFB, makes the reading as written throw, and the whole state fail with it, while the corrected reading gives the byte back |
| AccessControl.Matching | Access_Control/AccessControl.Api.Features/Roles/CreateRole.cs:64-66 | the matched permissions are exactly the stored permissions whose names the request lists, never more of them than are stored |
| AccessControl.Role.constructor | Access_Control/AccessControl.Api.Domain/Entities/Role.cs:21-33 | the role has the id, name and permissions given, and no users |
| AccessControl.Role.HasPermission | Access_Control/AccessControl.Api.Domain/Entities/Role.cs:46-49 | the role has the permission exactly when one of its permissions has that name |
| AccessControl.Role.AddPermission | Access_Control/AccessControl.Api.Domain/Entities/Role.cs:36-39 | the permission is appended, the role then has a permission of that name, and its name and users do not change |
| AccessControl.Role.RemovePermission | Access_Control/AccessControl.Api.Domain/Entities/Role.cs:41-44 | the removal throws exactly when no permission has the name, and then changes nothing; otherwise exactly the first permission of that name is removed |
| AccessControl.Role.RemovePermissions | Access_Control/AccessControl.Api.Features/Roles/Assignment/RemovePermissionFromRole.cs:62-65 | the permissions afterwards are the old ones with one copy of each given permission removed in turn, and the name and users do not change |
| AccessControl.RolesWithUser | Access_Control/AccessControl.Api.Features/Permission/CheckUserPermission.cs:47-49 | the roles kept are exactly the stored roles that include the user |
| AccessControl.CheckUserPermission | Access_Control/AccessControl.Api.Features/Permission/CheckUserPermission.cs:45-54 | the answer is true exactly when some role that includes the user has a permission of that name; grants, assignments and the document play no part |
| AccessControl.UserEntitlements | Access_Control/AccessControl.Api.Features/Permission/GetUserPermissions.cs:54-56 | the list is the user's grants, then the user's assignments, then the roles that include the user, each in store order |
| AccessControl.EntitlementList | Access_Control/AccessControl.Api.Features/Permission/GetUserPermissions.cs:54-56 | the combined list has one entry per grant, then per assignment, then per role, each the entry of its element in order |
| AccessControl.EntitlementListMembers | Access_Control/AccessControl.Api.Features/Permission/GetUserPermissions.cs:54-56 | grant entries fill the first block and role entries the last, and an entry of each kind is in the list exactly when its element is in its own input list |
| AccessControl.UserEntitlementsMembers | Access_Control/AccessControl.Api.Features/Permission/GetUserPermissions.cs:50-58 | the list holds exactly the user's grants, the user's assignments and the roles that include the user, with the grants first and the roles last |
| AccessControl.UserResourceFilter | Access_Control/AccessControl.Api.Features/Grants/GetGrants.cs:41-47 | a row is kept exactly when it is the user's and, when a resource is given, on that resource |
| AccessControl.UserResourceFilterInOrder | Access_Control/AccessControl.Api.Features/Grants/GetGrants.cs:41-47 | the two filters in a row are one filter that keeps the store order |
| AccessControl.GetGrants | Access_Control/AccessControl.Api.Features/Grants/GetGrants.cs:39-48 | the grants answered are exactly the user's grants, on the resource when one is given |
| AccessControl.GetAssignments | Access_Control/AccessControl.Api.Features/Assignment/GetAllAssignmentsFromUser.cs:44-53 | the assignments answered are exactly the user's assignments, on the resource when one is given |
| AccessControl.GetGrantsFailures | Access_Control/AccessControl.Api.Features/Grants/GetGrants.cs:30-33 | the query fails validation exactly when the user id is empty, with FluentValidation's default "must not be empty" message |
| AccessControl.DeleteGrantFailures | Access_Control/AccessControl.Api.Features/Grants/DeleteGrant.cs:30-35 | the command passes exactly when the user, the resource and the permission are all given, with one failure per missing field |
| AccessControl.GetAssignmentsFailures | Access_Control/AccessControl.Api.Features/Assignment/GetAllAssignmentsFromUser.cs:32-36 | the query fails exactly when the user id is empty, with "UserId is required." |
| AccessControl.RemoveAssignmentFailures | Access_Control/AccessControl.Api.Features/Assignment/RemoveAssignment.cs:30-42 | the command passes exactly when the three ids are given, and "Role ID is required." is reported exactly when the role id is empty |
| AccessControl.CreateRoleFailures | Access_Control/AccessControl.Api.Features/Roles/CreateRole.cs:41-53 | the command passes exactly when the name is not blank, at most 100 UTF-16 code units and used by no role, and some permission name is given; the uniqueness and permission failures are reported exactly when their condition fails |
| AccessControl.UpdateRoleFailures | Access_Control/AccessControl.Api.Features/Roles/UpdateRole.cs:38-53 | the command passes exactly when the name is valid and used by no other role, and the request names at least one stored permission; "Some permission IDs are invalid." is reported exactly when it names none |
| AccessControl.PermissionListFailuresAsWritten | Access_Control/AccessControl.Api.Features/Roles/Assignment/AssignPermissionToRole.cs:41-44 | as written, the list passes exactly when it is not empty and every name in it is null or empty |
| AccessControl.PermissionListFailures | Access_Control/AccessControl.Api.Features/Roles/Assignment/AssignPermissionToRole.cs:41-44 | as the messages describe it, the list passes exactly when it is not empty and no name in it is null or empty |
| AccessControl.NamedPermissionRefusedAsWritten | Access_Control/AccessControl.Api.Features/Roles/Assignment/AssignPermissionToRole.cs:43-44 | as written, a list naming any real permission fails with "All permission IDs must be valid."; a list of non-empty names passes the corrected validator |
| AccessControl.AcceptedAsWrittenMatchesNothing | Access_Control/AccessControl.Api.Features/Roles/Assignment/RemovePermissionFromRole.cs:38-60 | a list the validator as written lets through matches no stored permission, so its count check fails |
| AccessControl.CountChecked | Access_Control/AccessControl.Api.Features/Roles/Assignment/AssignPermissionToRole.cs:63-65 | the count comparison passes exactly when as many permissions match as names were requested, and then answers the matched permissions |
| AccessControl.CountCheckPasses | Access_Control/AccessControl.Api.Features/Roles/CreateRole.cs:64-71 | when stored names are unique, the count comparison passes exactly when the requested names are distinct and each is a stored permission's name |
| AccessControl.RepeatedNameRefused | Access_Control/AccessControl.Api.Features/Roles/CreateRole.cs:68-71 | a stored name requested twice fails the count check |
| AccessControl.KnownNamesPass | Access_Control/AccessControl.Api.Features/Roles/Assignment/AssignPermissionToRole.cs:41-65 | distinct names of stored permissions pass the corrected validator and the count check |
| AccessControl.DeleteGrant | Access_Control/AccessControl.Api.Features/Grants/DeleteGrant.cs:41-55 | the handler throws exactly when several grants match, answers "Grant.NotFound" exactly when none does, and otherwise removes the one matching grant and nothing else; any other answer leaves the grants as they were |
| AccessControl.DeleteGrantTwice | Access_Control/AccessControl.Api.Features/Grants/DeleteGrant.cs:43-54 | after a deletion, the same request finds nothing, and exactly one grant fewer is stored |
| AccessControl.RemoveAssignment | Access_Control/AccessControl.Api.Features/Assignment/RemoveAssignment.cs:49-65 | the removal succeeds exactly when such an assignment is stored, and then removes its first copy; otherwise it answers "Role assignment not found." and changes nothing |
| AccessControl.RemoveAssignmentRemovesOneCopy | Access_Control/AccessControl.Api.Features/Assignment/RemoveAssignment.cs:51-62 | the assignments afterwards are the old ones less one copy of the requested assignment |
| AccessControl.RoleIndex | Access_Control/AccessControl.Api.Features/Roles/UpdateRole.cs:61-63 | the position of the first role with the id, or -1 exactly when no role has it |
| AccessControl.AccessControlContext.GetUserPermissions | Access_Control/AccessControl.Api.Features/Permission/GetUserPermissions.cs:48-59 | the handler throws exactly when there is no current user or the user id does not parse; otherwise it answers `UserEntitlements` of that user |
| AccessControl.AccessControlContext.DeleteGrantHandler | Access_Control/AccessControl.Api.Features/Grants/DeleteGrant.cs:41-55 | the answer and the grants afterwards are those of `DeleteGrant`; the other tables do not change |
| AccessControl.AccessControlContext.RemoveAssignmentHandler | Access_Control/AccessControl.Api.Features/Assignment/RemoveAssignment.cs:49-65 | the answer and the assignments afterwards are those of `RemoveAssignment`; the other tables do not change |
| AccessControl.AccessControlContext.CreateRoleHandler | Access_Control/AccessControl.Api.Features/Roles/CreateRole.cs:60-83 | a failed count check answers "Some permission IDs are invalid." and a failed save its message, both storing nothing; otherwise a new role with the name, the matched permissions and no users is stored and its name answered |
| AccessControl.AccessControlContext.UpdateRole | Access_Control/AccessControl.Api.Features/Roles/UpdateRole.cs:15-77 | a route id other than the command's is refused; a missing role answers "Role.NotFound"; otherwise the role is renamed and the matched permissions are appended to its list; no other role changes |
| AccessControl.AccessControlContext.AssignPermissionsToRole | Access_Control/AccessControl.Api.Features/Roles/Assignment/AssignPermissionToRole.cs:21-71 | a route id other than the command's is refused; a missing role answers "Role not found" and a failed count check "One or more permissions not found", both changing nothing; otherwise the matched permissions are appended; no other role changes |
| AccessControl.AccessControlContext.RemovePermissionsFromRole | Access_Control/AccessControl.Api.Features/Roles/Assignment/RemovePermissionFromRole.cs:18-70 | a route id other than the command's is refused; a missing role answers "Role not found"; otherwise one copy of each matched permission is removed from the role; no other role changes |
| AccessControl.RemovedPermissions | Access_Control/AccessControl.Api.Features/Roles/Assignment/RemovePermissionFromRole.cs:60-65 | the removal takes one copy of each matched permission away and keeps every permission the request does not name as many times as before |
| AccessControl.RemovedPermissionGone | Access_Control/AccessControl.Api.Features/Roles/Assignment/RemovePermissionFromRole.cs:60-65 | a stored permission the request names, held at most once by the role, is gone afterwards |
| Organizations.User.constructor | Organization/Organization.Api.Domain/Entities/User.cs:12-28 | the user has the given id, name, email and password, and no roles |
| Organizations.User.WithRoles | Organization/Organization.Api.Domain/Entities/User.cs:30-37 | the user has the given id, name, email, password and roles |
| Organizations.User.HasPermission | Organization/Organization.Api.Domain/Entities/User.cs:56-59 | the user has the permission exactly when one of its roles grants it |
| Organizations.User.AddRole | Organization/Organization.Api.Domain/Entities/User.cs:46-49 | the role is appended; afterwards the user has every permission of the role and keeps every permission it had; name, email and password do not change |
| Organizations.User.RemoveRole | Organization/Organization.Api.Domain/Entities/User.cs:51-54 | the removal throws exactly when no role has the name, and then changes nothing; otherwise exactly the first role of that name is removed |
| Organizations.RemoveRoleKeepsOtherGrants | Organization/Organization.Api.Domain/Entities/User.cs:51-59 | a permission that another role also grants is still held after a role is removed |
| Organizations.NewInvite | Organization/Organization.Api.Domain/Entities/Invite.cs:11-31 | a new invitation carries the fields given and expires 30 minutes after its creation |
| Organizations.AcceptWith | Organization/Organization.Api.Entities/Organization/Invitations/InviteAccepted.cs:37-59 | an unknown invitation gives NotFound and changes nothing; members change only when the acceptance succeeds, and then the invitation was unexpired and not yet accepted, is marked accepted, and the current user joins its organization as a member |
| Organizations.ExpiredInviteNotStoredAsWritten | Organization/Organization.Api.Entities/Organization/Invitations/InviteAccepted.cs:44-48 | as written, an expired invitation is refused with the expiry conflict and no member is added, but the stored invitation keeps its status |
| Organizations.ExpiredInviteRefused | Organization/Organization.Api.Entities/Organization/Invitations/InviteAccepted.cs:44-48 | an expired invitation is refused with the expiry conflict whatever its status, no member is added, and the stored invitation is marked expired while the others are unchanged |
| Organizations.AcceptedOnce | Organization/Organization.Api.Entities/Organization/Invitations/InviteAccepted.cs:50-54 | an invitation admits one member: accepting it again later is a conflict and adds no one |
| Organizations.ToDto | Organization/Organization.Api.Entities/Organization/GetMyOrganization.cs:67 | the answer carries the organization's id, name and owner |
| Organizations.GetMyOrganization | Organization/Organization.Api.Entities/Organization/GetMyOrganization.cs:44-68 | the query throws exactly when the current user's id is missing or does not parse; the empty id is refused with "Unauthorized"; an organization answered is one the user owns or is a member of |
| Organizations.OwnerPreferred | Organization/Organization.Api.Entities/Organization/GetMyOrganization.cs:50-54 | the first organization the user owns is answered, whatever the memberships |
| Organizations.MemberFallback | Organization/Organization.Api.Entities/Organization/GetMyOrganization.cs:56-65 | a user who owns nothing gets "Organization not found" exactly when they have no membership or the organization of their first membership is gone |
| Organizations.OrganizationContext.AcceptInviteHandler | Organization/Organization.Api.Entities/Organization/Invitations/InviteAccepted.cs:37-59 | the organizations stay the same, and the answer, invitations and members afterwards are those of `AcceptInviteAsWritten` |
| Linq.Where | Document/Document.Api.Entities/Documents/GetDocuments.cs:59 | the filter keeps exactly the elements that satisfy the predicate, and never more than it is given |
| Linq.WhereConcat | Document/Document.Api.Entities/Documents/GetDocuments.cs:59 | filtering two runs one after the other keeps what each run keeps, in order |
| Linq.AnyIffWhereNonEmpty | Access_Control/AccessControl.Api.Domain/Entities/Role.cs:48 | `Any` holds exactly when the filter by the same predicate is not empty |
| Linq.SingleWhere | Access_Control/AccessControl.Api.Features/Grants/DeleteGrant.cs:43-46 | no match exactly when no element satisfies the predicate; a match is the only element that does; an ambiguous answer means two elements do |
| Linq.FirstWhere | Access_Control/AccessControl.Api.Domain/Entities/Role.cs:43 | the position of the first element satisfying the predicate, or -1 exactly when none does |
| Linq.DistinctKeys | Document/Document.Api.Entities/Documents/GetDocuments.cs:52 | each key of the input appears once, in no other case, and never more keys than elements |
| Linq.GroupByGroups | Document/Document.Api.Entities/Documents/GetDocuments.cs:52 | every group is non-empty and holds exactly the input's elements with its key |
| Linq.GroupByPartition | Document/Document.Api.Entities/Documents/GetDocuments.cs:52 | each element of the input lies in exactly one group |
| Linq.Skip | Document/Document.Api.Entities/Documents/GetDocuments.cs:64 | the suffix left after dropping the first n elements, or all of them when n is not positive |
| Linq.Take | Document/Document.Api.Entities/Documents/GetDocuments.cs:65 | the prefix of at most n elements, none when n is not positive |
| Linq.WrapInt32 | Document/Document.Api.Entities/Documents/GetDocuments.cs:64 | the offset as unchecked 32-bit arithmetic leaves it: in the `int` range, congruent to the exact product modulo 2^32, and equal to it when it fits |
| Linq.PageIsSlice | Document/Document.Api.Entities/Documents/GetDocuments.cs:63-66 | for a valid page request, the page is the slice of at most `pageSize` elements starting at the 32-bit offset, which is `(pageNumber - 1) * pageSize` whenever that fits in an `int`; an offset that wraps to a negative value skips nothing |
| Linq.WrappedOffsetAnswersFirstPage | Document/Document.Api.Entities/Documents/GetDocuments.cs:63-66 | page 1073741825 of size 2 has offset 2^31, which wraps to the smallest `int`, so the answer is the first two elements |
| Linq.PagesCover | Document/Document.Api.Entities/Documents/GetDocuments.cs:63-66 | in a list whose count is an `int`, every element appears on page `i / pageSize + 1`, at position `i % pageSize` |
| Linq.RemoveValue | Access_Control/AccessControl.Api.Features/Roles/Assignment/RemovePermissionFromRole.cs:64 | `List.Remove` takes one copy of the value away when present and otherwise changes nothing |
| Linq.RemoveEachMultiset | Access_Control/AccessControl.Api.Features/Roles/Assignment/RemovePermissionFromRole.cs:62-65 | removing each value in turn takes away one copy per value |
| Linq.WhereDropsOne | User/User.Api.Entities/Users/DeleteUser.cs:56 | when exactly one element fails the predicate, the filter is the input without it |

## Left out

- log-saver's process lifecycle is not modelled: the goroutine, the signal wait, the deferred closes and the fatal startup checks. Only the per-delivery step and the consume loop are modelled, as sequential code over a sequence of deliveries.
- Wire clients are not modelled: RabbitMQ connections and channels, the Redis client with its TLS and ping, Azure Blob storage, the Cosmos serializer and the Azure e-mail loop of ForgotPassword. Their results are inputs.
- The RabbitMQ producers, the `RabbitMqBaseService` callback and the `LoggingBehaviour` classes are left out. They only publish, consume, ack or time a request.
- Thin EF Core and AutoMapper pass-throughs are left out because each is a single query or a single add:
  - DeleteRole, GetRoleById, GetRoles, GetPermissionsPerRoleId, GetAllPermissions, AddUserToPermission, CreateGrant and AssignAssignmentToUser;
  - the Organization create, delete, update, member and AddRoleToUser handlers;
  - GetUsers and GetUserByUserId;
  - the Auditing Upload and DeleteDocument handlers (the append-then-answer rule they share is modelled for rollback and update);
  - seed data and migrations.
- The Document-side `Document.Apply` and its DocumentFactory are not part of this model. The Document fold is an `Applier` parameter, so every Document query is proved for any fold.
- Hashing (BCrypt), JWT signing (`GenerateToken`) and `RandomNumberGenerator` are uninterpreted parameters. Where a hash is compared (ChangePassword), the hash of that call is its own input, since BCrypt salts every call. JSON deserialization of the claims is a `parse` parameter.
- Floating point is not modelled. A nullable `float` version is an `Option<real>`; the lifted comparison with null is false.
- The 5-minute cache expiry, the `Task.Delay` polling and the saga's 15-second timer are not modelled. A timeout is an event the caller chooses.
- The saga's nested `DeleteDocumentByUserIdCommand` and `ExistsDocumentByUserIdQuery` dispatch is not modelled. Its answers (documents exist, deletion failed) are inputs of the saga.
- Concurrency of the `ConcurrentDictionary` and `ConcurrentQueue` fields is not modelled. Their operations are modelled as sequential updates.
- Cache.CacheService: the singleton's `_keys` is a plain `List<string>` shared by concurrent requests and is modelled sequentially. A `SetCache` that runs during `InvalidateCaches` can leave a live entry unrecorded, or make the `foreach` throw; the model's promises (the cache ends empty, every live entry stays recorded) hold only for calls that do not overlap.
- DocumentInfra.DocumentStore: the singleton `DocumentStorage` keeps a plain list that requests and the scan service both change. It is modelled sequentially, so interleaved appends are not captured.
- UserStore.Issued: the source reads the clock twice, once for `CreatedAt` and once for `ExpiresAt`. The model reads it once, so "expires seven days after its creation" is exact only under that abstraction; in the source the gap can be a few ticks longer.
- LogConsumer.Consumer.Received: the acknowledgement is taken to succeed. If `BasicAckAsync` throws after the save, the `catch` nacks with requeue a log that is already saved, and a redelivery stores it twice; the model does not show that.
- The formatting of cache-key strings is not modelled. Keys are a datatype with one constructor per key kind.
- The Auditing cache service is not part of this model. It is given the same semantics as the Document `CacheService`.
- Validators whose bounds live in constants files that are not part of this model are left out (the User and Organization `Configuration` classes).
- `NotifyUserAuthentication` and `NotifyUserLogout` are left out because they only raise an event.
- The `UpdateTrackingDates` pass of the shadow context is left out because the source has its calls commented out.
- AccessControl.AccessControlContext.DeleteGrantHandler: the save is taken to succeed; the source does not catch a throwing save, and the model does not show that exception.
- AccessControl.AccessControlContext.RemoveAssignmentHandler: the save is taken to succeed; the source does not catch a throwing save, and the model does not show that exception.
- AccessControl.AccessControlContext.UpdateRole: the save is taken to succeed; a throwing save escapes the handler, which the model does not show.
- AccessControl.AccessControlContext.AssignPermissionsToRole: the save is taken to succeed; a throwing save escapes the handler, which the model does not show.
- AccessControl.AccessControlContext.RemovePermissionsFromRole: the save is taken to succeed; a throwing save escapes the handler, which the model does not show.
- Authentication.LoginHandler: both saves (after a failed attempt and after a success) are taken to succeed; a throwing save escapes the handler, which the model does not show.
- Authentication.RefreshHandler: the save is taken to succeed; a throwing save escapes the handler, which the model does not show.
- UserStore.RefreshTokenGenerator.GenerateAndStoreRefreshToken: the save of the new token is taken to succeed; a throwing save is not shown.
- UserStore.RefreshTokenGenerator.RevokeOldRefreshToken: the save of the revocations is taken to succeed; a throwing save is not shown.
- Organizations.OrganizationContext.AcceptInviteHandler: the final save of the new member and the accepted invitation is taken to succeed; a throwing save escapes the handler, which the model does not show.
- AuditingQueries.UpdatePipeline: which of the two validators of the update query the container resolves depends on the order in which `AddValidatorsFromAssembly` registers them, which is not modelled; the lemma holds for either.
- Save outcomes that are inputs: Access Control's CreateRole, the saving of an expired invitation in the Organization service, the Auditing saves, the User command saves, and the saga's save of a removed user. For the removal of a present user, `UserDeletion` derives the outcome from the context, which throws as written. This holds provided the User service's database context, which is not part of this model, derives from `ShadowContext` as its Organization namesake does.
- The Organization `Role`, `Member` and invitation status classes are datatypes, because no operation here updates them in place.
- Common.ToLower: lower-cases only the ASCII letters, not the whole of `ToLowerInvariant`.
- UserCommands.ShortPasswordRefused: the password rule demands 15 characters while its message says 12. The model keeps both as written and proves the mismatch for passwords of 12 to 14 characters; it does not pick the intended bound.
- ASP.NET controllers, dependency injection, configuration, authorization attributes, the frontend HTTP services and the end-to-end and load tests are left out because they hold no logic of the core.

## Findings

| source | as written | input that shows it | evidently intended | confidence | as-written member | corrected member |
|---|---|---|---|---|---|---|
| Document/Document.Api.Entities/Documents/ExistsDocumentByUserId.cs:23-52 | the query answers whether any live document exists; the requested user id is never compared | one live upload by user 1, queried for user 2 | answer whether the requested user owns a live document | not executed | DocumentQueries.ExistsAsWrittenAnswersForAnyone | DocumentQueries.ExistsForUserImpliesAsWritten |
| Document/Document.Api.Entities/Documents/RolebackDocument.cs:46-51 | the "not deleted" validator is typed on the update query, so a rollback is never validated | a rollback of an uploaded-then-deleted document | a rollback of a deleted document fails validation | not executed | DocumentQueries.RollbackOfDeletedDocument | DocumentQueries.RollbackValidation |
| Auditing/Auditing.Api.Entities/Documents/RolebackDocument.cs:43-48 | the same validator is typed on the update query, and the rollback reapplies only versioned events | an upload at version 1, then a delete, rolled back to version 1 | the rollback is refused, so the deleted file does not reappear | not executed | AuditingQueries.RollbackResurrectsDeleted | AuditingQueries.RollbackValidation |
| Auditing/Auditing.Api.Domain/Events/DocumentUploadedEvent.cs:23-24 | the constructor assigns the name and description properties to themselves, so both stay null | any upload with a non-empty name | the event carries the uploaded name and description | not executed | AuditingEvents.UploadAsWrittenLosesName | AuditingEvents.UploadShowsUpload |
| DocumentFrontend/Services/ApiAuthenticationStateProvider.cs:54-61 | the payload is base64url text but is decoded with the standard alphabet after restoring only padding | token ".-w." (payload byte 0xFB) | map '-' and '_' to '+' and '/' before decoding | not executed | JwtClaims.UrlSafePayloadThrowsAsWritten | JwtClaims.PayloadOfToken |
| User/User.Api.Entities/Authentication/Login.cs:51-54 | `SingleAsync` throws when no user has the e-mail, so the null check after it is dead | an e-mail no user has | answer "Invalid credentials." | not executed | Authentication.UnknownEmail | Authentication.KnownEmailAgrees |
| User/User.Api.Entities/Authentication/RefreshToken.cs:48-62 | a refresh token is found by value only; revoked, used and expired tokens are still redeemed | redeeming the same token twice | refuse a token that is revoked, used or expired | not executed | Authentication.ReplayedRefreshToken | Authentication.RefreshOnlyRedeemable |
| User/User.Api.Entities/Users/UpdateUser.cs:57-60 | the username rule runs on every update, so an update of the e-mail alone always fails | an update with a valid new e-mail and no username | check the username only when one is given | not executed | UserCommands.UpdateUserFailuresAsWritten | UserCommands.EmailOnlyUpdate |
| User/User.Api.Infrastructure/Persistance/ShadowContext.cs:119-146 | the entry is passed to `Entry()` again, which throws for a change-tracker entry; the soft-delete pass also drops the deletion flag by detaching | any soft deletion, or a new entity with user data while a user is signed in | turn a soft deletion into an update of the row and stamp the signed-in user | not executed | Persistence.StampThrowsAsWritten | Persistence.SoftDeletionKeepsRow |
| Access_Control/AccessControl.Api.Features/Roles/Assignment/AssignPermissionToRole.cs:43 | the rule requires every permission name to be null or empty | the list ["read"] | require every name to be non-empty | not executed | AccessControl.NamedPermissionRefusedAsWritten | AccessControl.KnownNamesPass |
| Organization/Organization.Api.Entities/Organization/Invitations/InviteAccepted.cs:44-48 | the expired status is set on the tracked invitation and the handler returns before `SaveChanges`, so the store never records the expiry | an invitation whose expiry time has passed | the stored invitation is marked expired | not executed | Organizations.ExpiredInviteNotStoredAsWritten | Organizations.ExpiredInviteRefused |
| User/User.Api.Entities/Users/CreateUser.cs:76-87 | each length message is a static field declared before the `int` bounds it interpolates; static initialisers run in textual order, so it is formatted with their defaults (the same holds at UpdateUser.cs:76-87) | a username "abc": the failure says "A username needs to be between 0 and 0 characters." | state the bounds the rules check, "between 4 and 50" and "between 4 and 100" | not executed | UserCommands.LengthMessagesAsWritten | UserCommands.IntendedLengthMessages |
| User/User.Api.Entities/Users/ChangePassword.cs:80 | the old password is checked by hashing it again and comparing strings, but the hashing service salts every call, so the strings never match | any change with the right old password | check it with the hashing service's `Validate`, as login does | not executed | UserCommands.RightOldPasswordRefusedAsWritten | UserCommands.OldPasswordGuardsChange |
