# Mariner: stateful behaviour, modelled and proved

Mariner is a Go server with a browser client for S3 buckets. This project models the parts of it that keep
state across steps, in the form the source has them, and proves what they promise.

- **Multipart uploads.** `MultipartPool` is `uploadMultipart` as a step system: producer, unbuffered channel, workers,
  shared slots, first error, cancellation, deferred abort. `ClientUpload` is the browser's slicing loop and
  `UploadServer` the server that receives its parts, in any order, and completes, refuses or aborts; `UploadRuns` drives
  the one against the other. `PartPlan` holds the arithmetic of parts that both share, `TempNames` the names of
  temporary files and `Lists` lists end to end.
- **Connection groups.** `Text` and `Paths` give Go's string functions on real strings. `ConnectionGroups` has the
  helpers, `GroupRequests` the create, delete, rename and list requests over a stored document, `GroupView` the copy
  that the browser renames by itself, and `ConnectionTree` the tree that the browser builds from it.
- **Connections in several stores.** `ConnectionStores`, `ConnectionMoves` and `ConnectionListing` model personal
  vaults and organizations that may fail at any call; `ConnectionConservation` says what is conserved. `Connections`
  is the stored record that these and the groups share.
- **Audit forwarding.** `AuditEvents` is the append-only table, `AuditForwarder` the cursor loop over it while rows
  arrive, and `AuditTimes` what the text order of times does to it.
- **Rate limiting.** `RateLimiter` is the fixed-window limiter over any sequence of requests.
- **Bulk operations.** `FolderDelete` is paged deletion in batches, `Archive` the size-limited archive, `Backup`
  the export, validation and transactional import of the database.

`dafny verify dfyconfig.toml` checks the whole project. Methods follow the loops and updates of the source and are
tied to specification functions; lemmas then say what those functions promise.

## Assumptions

- Integers have the source's width where it matters: part numbers are `int32`, sizes and sums `int64`. `Config.Valid`
  of `MultipartPool` says that the rounding sum `size + partSize - 1` and the part numbers fit.
- The caller's context of `uploadMultipart` may be cancelled from outside: this is the step `OuterCancel`. Without it
  every slot is filled when S3 is asked to complete; with it the exact condition is stated.
- The browser sends each part number once. What a repeated part does to an upload is stated separately.
- The map given to `orderedUploadParts` has fewer than 2^31 - 1 entries, so that its `int32` counter does not wrap.
- A bucket has no other writers during a folder delete. A store lists versions for its objects or keeps them plain;
  for a bucket that mixes both under one prefix the exact outcome is stated.
- Requests on connections, groups and stores are handled one at a time, each on a fresh copy of what is stored.
- Times given to the rate limiter do not decrease in the order in which requests take its lock, and client
  addresses hold no NUL character.
- Text order is the order of code points, which is the order of UTF-8 bytes.
- Calls to S3, the disk and the database succeed or fail freely; hashing is over the concatenated bytes.

## Findings

- Rename checks the depth of the new path only: `GroupRequests.RenameTooDeepExample` stores a group of six levels, and
  `GroupRequests.RenameTooDeepForConnectionExample` a connection at six levels although every group that moves fits; its
  path is then no longer valid. `GroupRequests.RenameKeepsDepthIff` says exactly when the bound of five survives, for
  groups and connections together.
- Rename does not store ancestors of the new path: `GroupView.RenameLosesParentExample`,
  `GroupRequests.RenameKeepsClosedIff`.
- After a rename the browser's view can differ from a fresh listing until the next load: it keeps the new path as it was
  typed, while the server trims slashes too, and it neither adds the new path's parents nor drops an old parent that was
  listed only because of the group (`GroupView.OldParentStaysExample`). `GroupView.RenamedViewIsFreshIff` says exactly
  when the groups do agree, for every text and every stored document without blank names, which are all that requests
  leave behind (`GroupRequests.RunKeepsNames`); `GroupView.RenamedCardIsFreshIff` says it for the connections.
- A new path typed with a leading slash reaches the tree, where its node is stored under another path:
  `GroupView.LeadingSlashExample`, `GroupView.LeadingSlashReachesTree`; `ConnectionTree.WalkedIsPathIff` is the exact
  condition for the tree.
- Moving a connection out of an organization loses it when, and only when, saving the vault is the call that fails:
  `ConnectionConservation.MoveToVaultLosesIff`. Without such moves no run of requests, failing or not, loses a
  connection that is not deleted: `ConnectionConservation.RunNeverLoses`.
- Times of one second are ordered by their texts as in time exactly when neither fraction extends the other
  (`AuditTimes.TextOrderIsTimeOrderIff`): ".12" sorts before ".1", and any fraction before its whole second. An audit
  event that arrives is never forwarded exactly when its key is not beyond the cursor
  (`AuditForwarder.ArrivalIsLostIff`). So of the events that are later in time than the one at the cursor, those of a
  later second are never lost (`AuditTimes.LaterSecondIsNeverLost`) and those of the same second exactly when their
  fraction extends that of the cursor (`AuditTimes.LaterEventIsLostIff`).
- A repeated upload part is refused only after it has overwritten the stored part and the file that is hashed. With any
  repeats in any interleaving, an upload can be completed exactly when the recorded numbers are 1..n and S3's last answer
  for each part is the one recorded first (`UploadServer.FinishableIff`; `UploadServer.RequestsFinishableIff` and
  `UploadServer.RepeatSurvivesIff` for requests one after another, `UploadServer.RepeatBreaksCompletion` as an example).
- A completion or an abort that another user sends under an upload's id is refused or ignored, but drops the owner's
  record of it, so that the owner's next request is refused; a request for a part changes nothing
  (`UploadRuns.NamedByAnother`).
- The server cannot tell a missing tail of parts: `UploadServer.CompletionYieldsFileIff`.

## Model

| member | source | states |
|---|---|---|
| `MultipartPool.PartNumberExact` | internal/service/s3/service.go:558 | the conversion to int32 gives part index + 1 for every index below 2^31 - 1 |
| `MultipartPool.InitInv` | internal/service/s3/service.go:533-576 | the state after the upload is created satisfies the invariant of the pool |
| `MultipartPool.HeldKept` | internal/service/s3/service.go:557-574 | in every step a worker holds only parts that it received itself and whose slot is still empty |
| `MultipartPool.RemoteKept` | internal/service/s3/service.go:564-573 | in every step what S3 holds matches every filled slot and every uploaded part in a worker's hands |
| `MultipartPool.AccountedKept` | internal/service/s3/service.go:569-573 | no step loses a part: each part handed out is stored, in the hands of its worker, or there was an error |
| `MultipartPool.ErrorsKept` | internal/service/s3/service.go:551-571 | in every step cancellation, a recorded first error and workers that leave early go together |
| `MultipartPool.EndingKept` | internal/service/s3/service.go:587-597 | in every step the tail of the upload keeps: all workers joined before it, one completion or one abort, the first error returned |
| `MultipartPool.ReachableInv` | internal/service/s3/service.go:540-596 | the whole invariant holds after every sequence of steps |
| `MultipartPool.CompleteListsPartsHandedOut` | internal/service/s3/service.go:577-592 | when Complete is called exactly the slots of the parts handed out are filled; all of them if the caller's context was not cancelled |
| `MultipartPool.CompleteAssemblesTheFile` | internal/service/s3/service.go:558-592 | a full part list names parts of S3 whose contents, in order, are the file |
| `MultipartPool.SlotsWrittenOnce` | internal/service/s3/service.go:557-574 | each slot is written at most once, by the only worker that received its index, as part i+1 with exactly the bytes of range i |
| `MultipartPool.EndsInOneOutcome` | internal/service/s3/service.go:534-596 | after the return there was exactly one successful completion or one abort, the first error is what is returned, and all workers have left |
| `MultipartPool.OuterCancelExample` | internal/service/s3/service.go:580-592 | with the caller's context cancelled, Complete can be reached with an empty slot |
| `MultipartPool.WorkersRunning` | internal/service/s3/service.go:543-553 | in every reachable state as many workers run as the smaller of the concurrency and the number of parts, and no more than that are busy with a part |
| `MultipartPool.FullyBusyRun` | internal/service/s3/service.go:543-578 | for all settings there is a run in which that many are uploading at the same time |
| `MultipartPool.FailedPartIsReported` | internal/service/s3/service.go:569-590 | a run in which the upload of a part failed never completes; when it returns it has aborted, with an error |
| `MultipartPool.FailureRun` | internal/service/s3/service.go:569-590 | S3 may refuse a part, and then its very error is what is returned |
| `MultipartPool.AllGoneIsCancelled` | internal/service/s3/service.go:569-572 | workers leave while parts remain only after cancelling |
| `MultipartPool.DesertedProducerSeesCancel` | internal/service/s3/service.go:578-582 | whenever all workers have left on error the producer's cancel branch is enabled |
| `MultipartPool.CanStep` | internal/service/s3/service.go:553-596 | no deadlock: in every reachable state before the return some step other than outside cancellation is enabled |
| `MultipartPool.StepDecreases` | internal/service/s3/service.go:553-596 | every step strictly lowers a measure |
| `MultipartPool.RunsEnd` | internal/service/s3/service.go:553-596 | no run has more than 6 steps a part, one a worker and 6 more |
| `MultipartPool.RunsReturn` | internal/service/s3/service.go:553-596 | every run can be continued to the return |
| `PartPlan.PartCountBounds` | internal/service/s3/service.go:541 | the rounded-up quotient is the least number of parts that covers the size |
| `PartPlan.PartsTile` | internal/service/s3/service.go:559-563 | every range is non-empty and the next one, or the end, starts where it stops: no gap and no overlap |
| `PartPlan.PartIsCovered` | frontend/src/api.ts:319-324 | the client's slice from the running offset is the same range as the server's part of that index |
| `PartPlan.PartsReassemble` | internal/service/s3/service.go:559-568 | the first n parts together are a leading piece of the file |
| `PartPlan.AllPartsAreTheFile` | internal/service/s3/service.go:541-568 | all parts together are the file |
| `ClientUpload.NextBatch` | frontend/src/api.ts:317-326 | the inner loop takes the next pieces in order, at least one and at most the concurrency, fewer only at the end of the file |
| `ClientUpload.SliceAll` | frontend/src/api.ts:313-326 | the batches together are all pieces, numbered from 1 to ceil(size / part size), with the bytes of their ranges |
| `ClientUpload.Slice` | frontend/src/api.ts:310-326 | the same for the settings given, or 16 MiB and one at a time where they are not positive |
| `ClientUpload.PieceAt` | frontend/src/api.ts:319-325 | piece i carries number i+1 and the bytes of range i |
| `ClientUpload.BatchOrderKeepsPieces` | frontend/src/api.ts:328-374 | in whatever order the requests of a batch finish, the same pieces arrive |
| `TempNames.PartPathInjective` | internal/httpapi/server.go:1437 | different part numbers have different temporary files, also beyond eight digits |
| `TempNames.PartPathShape` | internal/httpapi/server.go:1437 | a part's file lies in the directory under its number with at least eight digits |
| `UploadServer.FirstKeysAreAll` | internal/httpapi/server.go:1530-1536 | a map with the keys 1..n, n its size, has no other key: the counting argument behind the loop |
| `UploadServer.OrderedUploadParts` | internal/httpapi/server.go:1525-1538 | succeeds if and only if the map is not empty and its keys are exactly 1..n; then element i is part i+1 |
| `UploadServer.InterleavingReflects` | internal/httpapi/server.go:1431-1453 | however the effects of the part requests interleave, records, files and S3 parts end up as the parts sent |
| `UploadServer.PiecesReassemble` | internal/httpapi/server.go:1488-1514 | after the first k pieces both the bytes hashed and the object that S3 assembles are the same leading piece of the file |
| `UploadServer.BatchesFullyArrive` | frontend/src/api.ts:328-375 | batch by batch, each in any order, all pieces arrive at the server |
| `UploadServer.CompletionYieldsFileIff` | internal/httpapi/server.go:1488-1514 | a completion of the first k pieces is accepted, and yields the client's file exactly when k is the number of pieces |
| `UploadServer.UploadYieldsTheFile` | internal/httpapi/server.go:1431-1519 | end to end: for every file, part size, batching, order of arrival inside each batch and interleaving of effects, what is hashed and what S3 stores is the file |
| `UploadServer.RepeatBreaksCompletion` | internal/httpapi/server.go:1439-1450 | an example: after a repeat of the only part with another body and ETag, the hash is over the new bytes while S3 no longer has the recorded ETag |
| `UploadServer.RepeatSurvivesIff` | internal/httpapi/server.go:1431-1514 | for every upload that could be completed and every part of it: after a repeat of the part it still can be exactly when S3 answers with the recorded ETag |
| `UploadServer.FinishableIff` | internal/httpapi/server.go:1431-1514 | for part requests with any repeats whose effects interleave in any way: completion can succeed exactly when the recorded numbers are 1..n and S3's last answer for each part is the one recorded first |
| `UploadServer.RequestsFinishableIff` | internal/httpapi/server.go:1391-1519 | the same for any sequence of part requests, and then what is hashed is what S3 stores |
| `UploadServer.HashParts` | internal/httpapi/server.go:1494-1513 | hashing succeeds exactly when every listed file can be read, and covers their bytes in part order |
| `UploadServer.Finish` | internal/httpapi/server.go:1488-1519 | completion succeeds if and only if the keys are contiguous, the files readable and every recorded ETag is one S3 has; the object is the parts in order |
| `UploadServer.Server.UploadInit` | internal/httpapi/server.go:1338-1389 | a new upload is kept empty under S3's id; if the temporary directory fails, S3's upload is aborted and nothing kept |
| `UploadServer.Server.UploadPart` | internal/httpapi/server.go:1391-1456 | the reply for each failing check, one byte too many told from more; and for each reply which of records, files and S3 parts have changed; every upload in a directory apart keeps its view |
| `UploadServer.Server.UploadComplete` | internal/httpapi/server.go:1458-1523 | a named upload is forgotten whatever the outcome; the owner's reply for each failing check; success if and only if its owner completes a finishable upload, and then the object is stored; no file below the upload's directory is left, all others stay, and every open upload in a directory apart keeps its view |
| `UploadServer.Server.UploadAbort` | internal/httpapi/server.go:1540-1562 | only the owner's abort removes S3's parts and the files below the directory, and no other file; the record goes in any case; every open upload in a directory apart keeps its view |
| `UploadServer.Server.ReceivePart` | internal/httpapi/server.go:1427-1453 | the three effects of an accepted part, as far as they get |
| `UploadServer.Server.CompleteOwned` | internal/httpapi/server.go:1475-1519 | the owner's completion once the record is taken out |
| `UploadServer.SiblingsApart` | internal/httpapi/server.go:1378 | the temporary directories of different uploads lie apart |
| `UploadRuns.SendAll` | frontend/src/api.ts:328-375 | sending the pieces to the part handler, in the order of arrival and with any requests about other uploads in between, leaves the upload with the effects of all its requests; without failures none is refused |
| `UploadRuns.UploadFile` | frontend/src/api.ts:294-388 | the whole upload through the handlers, with any failures and while any other uploads are opened, filled, completed or aborted: success stores and hashes exactly the file, without failures it succeeds, and on its own it changes no other object |
| `UploadRuns.OtherRequest` | internal/httpapi/server.go:1338-1562 | any request of any user about another upload leaves this one as it was |
| `UploadRuns.NamedByAnother` | internal/httpapi/server.go:1404-1556 | another user's request under an upload's id leaves the record exactly when it is for a part; completion and abort drop it and change nothing else, and the owner's next part is refused |
| `Paths.JoinSplit` | internal/model/connection.go:33 | joining what Split returns gives the string back |
| `Paths.SplitJoin` | internal/model/connection.go:33 | splitting what was joined from slash-free segments gives the segments back |
| `Paths.WithinIsSegmentPrefix` | internal/model/connection.go:49-51 | the string test "equal, or prefix with a slash" holds exactly when the segments of one path lead those of the other |
| `ConnectionGroups.ValidateConnectionGroupPath` | internal/model/connection.go:29-47 | accepts exactly the paths of at most five safe segments; the error names depth first and otherwise the first bad segment |
| `ConnectionGroups.ValidIsClean` | internal/model/connection.go:37-41 | an accepted path has no empty segment |
| `ConnectionGroups.ValidPathIff` | internal/model/connection.go:29-47 | valid is the empty path and every path of at most five names that, without blanks, are not empty, "." or ".." and hold no backslash, line break or tab |
| `ConnectionGroups.SegmentValidIff` | internal/model/connection.go:37-44 | the same for one name, and which fault is found |
| `ConnectionGroups.AppendGroupPath` | internal/httpapi/server.go:559-574 | appends the missing ones of the paths named by the non-empty leading segments, shortest first |
| `ConnectionGroups.AncestorsAreWithin` | internal/httpapi/server.go:559-574 | for paths without empty segments these are exactly the paths that it lies within |
| `ConnectionGroups.AppendAll` | internal/httpapi/server.go:569-571 | appending keeps the old list in front, adds exactly the named paths and no duplicate |
| `ConnectionGroups.ContainsString` | internal/httpapi/server.go:575-582 | true exactly for members |
| `ConnectionGroups.HasGroupPath` | internal/httpapi/server.go:509-516 | true exactly when a stored group lies in the subtree |
| `ConnectionGroups.HasChildGroup` | internal/httpapi/server.go:601-608 | true exactly when another group lies below |
| `ConnectionGroups.GroupHasConnections` | internal/httpapi/server.go:609-616 | true exactly when a connection lies in the group or below |
| `ConnectionGroups.RemoveGroupPath` | internal/httpapi/server.go:592-600 | the list without the target |
| `ConnectionGroups.WithoutKeepsOrder` | internal/httpapi/server.go:592-600 | what is left keeps its order |
| `ConnectionGroups.RenameGroupPaths` | internal/httpapi/server.go:528-537 | the list of renamed paths without repetitions |
| `ConnectionGroups.RenameAll` | internal/httpapi/server.go:528-537 | holds exactly the renamed paths, each once |
| `ConnectionGroups.RenameReplacesSegments` | internal/httpapi/server.go:518-526 | on every string, renaming replaces a leading run of whole segments and nothing else |
| `ConnectionGroups.RenameBack` | internal/httpapi/server.go:518-526 | renaming back restores every path outside the new subtree |
| `ConnectionGroups.RenameInjective` | internal/httpapi/server.go:518-526 | outside the new subtree different paths stay different |
| `ConnectionGroups.RenameDropsNothing` | internal/httpapi/server.go:528-537 | with nothing stored in the new subtree the duplicate test drops nothing and order stays |
| `ConnectionGroups.RenameListBack` | internal/httpapi/server.go:528-537 | then renaming the list there and back restores it, order included |
| `ConnectionGroups.RenamedLeavesOld` | internal/httpapi/server.go:518-526 | a path outside the new subtree is, after the rename, outside the old one |
| `ConnectionGroups.RenameDepth` | internal/httpapi/server.go:518-526 | the depth of a moved path changes by the difference of the two prefixes |
| `ConnectionGroups.RenameDepthBound` | internal/httpapi/server.go:457-464 | of the group list alone, five levels remain the bound exactly when each moved group still fits |
| `GroupRequests.ConnectionGroupPaths` | internal/httpapi/server.go:546-558 | computes the listing of the next row |
| `GroupRequests.ListingIsPrefixClosure` | internal/httpapi/server.go:546-591 | the listing is strictly ascending and holds exactly the segment prefixes of the stored group and connection paths |
| `GroupRequests.UniqueStrings` | internal/httpapi/server.go:583-591 | removing repetitions from a list that has none changes nothing |
| `GroupRequests.ParentsFirst` | internal/httpapi/server.go:556-557 | in the listing every parent comes before its children |
| `GroupRequests.Store.CreateConnectionGroup` | internal/httpapi/server.go:364-399 | status and stored document of a create, or the old document when the save fails; no other failure |
| `GroupRequests.Store.DeleteConnectionGroup` | internal/httpapi/server.go:401-439 | the same for a guarded delete |
| `GroupRequests.Store.RenameConnectionGroup` | internal/httpapi/server.go:441-507 | the same for a rename, connections included |
| `GroupRequests.NormalizeCuts` | internal/httpapi/server.go:375 | of a text only the blanks around it, and then the slashes around that, are taken off |
| `GroupRequests.CreateAcceptedIff` | internal/httpapi/server.go:371-379 | a create is accepted exactly when the text is not blank and the path in it is empty or valid |
| `GroupRequests.CreateLists` | internal/httpapi/server.go:386-392 | then the group and all it lies in is listed next to what was, the stored groups stay in front and the connections as they were |
| `GroupRequests.DeleteAcceptedIff` | internal/httpapi/server.go:407-421 | a delete is accepted exactly when the path is valid, no connection lies in it or below and no group below it |
| `GroupRequests.DeleteLists` | internal/httpapi/server.go:422-432 | then only that group is taken out, and what is listed is what lies above the other paths |
| `GroupRequests.RenameAcceptedIff` | internal/httpapi/server.go:451-496 | a rename is accepted exactly when both paths are valid and the new one is the old one, or neither lies below it nor is taken |
| `GroupRequests.RenamedSources` | internal/httpapi/server.go:483-500 | then the stored groups and connection paths are the old ones, each renamed |
| `GroupRequests.MoveConnectionPaths` | internal/httpapi/server.go:498-500 | every connection keeps all but its path, which is renamed |
| `GroupRequests.CreateKeepsWellFormed` | internal/httpapi/server.go:386-392 | create keeps the stored list free of repetitions and closed under ancestors |
| `GroupRequests.DeleteKeepsWellFormed` | internal/httpapi/server.go:418-432 | so does delete, because a group with children is refused |
| `GroupRequests.RenameKeepsClosedIff` | internal/httpapi/server.go:479-497 | rename keeps the list so exactly when nothing moves, or the new path is top-level or has its parent stored |
| `GroupRequests.RenameKeepsWellFormed` | internal/httpapi/server.go:441-507 | a rename request to a top-level path or below a stored parent keeps the list well-formed |
| `GroupRequests.RequestKeepsWellFormed` | internal/httpapi/server.go:364-507 | every request does, if its rename is of that kind |
| `GroupRequests.RunKeepsWellFormed` | internal/httpapi/server.go:364-507 | over every run of requests, with saves that may fail, the list stays free of repetitions and closed |
| `GroupRequests.DeleteRemovesOnePath` | internal/httpapi/server.go:418-432 | on a closed list an allowed delete takes exactly that one path off the listing |
| `GroupRequests.RenameReverses` | internal/httpapi/server.go:465-505 | the reverse rename is accepted and restores the whole document, when the old path is not below the new one and no connection was in the new subtree |
| `GroupRequests.RenameKeepsDepthIff` | internal/httpapi/server.go:457-505 | after an accepted rename all group and connection paths have at most five levels, if they had before, exactly when each one that moves still fits |
| `GroupRequests.RenameTooDeepExample` | internal/httpapi/server.go:461-497 | an accepted rename that stores a group of six levels |
| `GroupRequests.RenameTooDeepForConnectionExample` | internal/httpapi/server.go:461-500 | an accepted rename after which the groups fit and a connection's path of six levels is no longer valid |
| `GroupRequests.RequestKeepsNames` | internal/httpapi/server.go:364-507 | no request stores a path with a blank name, closed list or not |
| `GroupRequests.RunKeepsNames` | internal/httpapi/server.go:364-507 | nor does any run of requests |
| `GroupRequests.ConnectionsKeepNames` | internal/api/connections.go:261-269 | nor does storing connections that were validated |
| `GroupView.ListingIsStoredIff` | internal/httpapi/server.go:546-558 | when every connection's path is stored, the listing shows the stored list exactly when that is closed |
| `GroupView.ReplacePathIsRenamePath` | frontend/src/App.tsx:301 | the browser's replacement is the server's on every string |
| `GroupView.RenamedViewIsFreshIff` | frontend/src/App.tsx:298-302 | for every text sent and every listed group: the browser's renamed groups are those of a fresh listing exactly when the name was left as it is; or the server finds the group as named and moves it, the old parent still has something in it, and the new parent is listed already if the server keeps the text, or else all that moves was listed outside the group already, where the server and where the browser put it |
| `GroupView.TypedPathStaysFreshIff` | frontend/src/App.tsx:2077-2086 | for text without blanks at its ends, as the dialog sends it: exactly when the server changes neither path, the new one is top-level or in a listed parent, and the old parent keeps something |
| `GroupView.ClosedListStaysFreshIff` | frontend/src/App.tsx:298-302 | for every text, on an ancestor-closed list that names every connection's path: exactly when the server changes neither path and the new one is top-level or has its parent stored |
| `GroupView.RenamedViewElsewhere` | frontend/src/App.tsx:302-303 | items and cards of other scopes stay, for every text |
| `GroupView.RenamedCardIsFreshIff` | frontend/src/App.tsx:303 | for every text sent: a card shows what the server stored exactly when, in the group, the browser kept the path that the server gave the group, and elsewhere the server did not move the connection |
| `GroupView.RenamedCardsAreFreshIff` | frontend/src/App.tsx:303 | for a group that the server finds as named: all cards are right exactly when the server stored what was typed or the group has no connection |
| `GroupView.LeadingSlashReachesTree` | frontend/src/App.tsx:301-302 | a new path typed with a leading slash is shown so, and the tree stores its node under another path |
| `GroupView.LeadingSlashExample` | frontend/src/App.tsx:298-302 | an accepted rename with such a path, what the server stores and what the browser shows |
| `GroupView.RenameLosesParentExample` | internal/httpapi/server.go:483-497 | an accepted rename after which a closed list is not closed |
| `GroupView.OldParentStaysExample` | frontend/src/App.tsx:298-302 | an accepted rename after which the browser shows the old parent and the server does not list it |
| `GroupView.ChangedTextStaysFreshExample` | frontend/src/App.tsx:298-302 | an accepted rename to a text that the server trims after which the view is fresh all the same |
| `ConnectionTree.WalkedIsPathIff` | frontend/src/App.tsx:515-518 | a node is stored under the path that led to it exactly when that has no leading slash |
| `ConnectionTree.WalkedIsJoin` | frontend/src/App.tsx:517 | the running path is the join of the names walked |
| `ConnectionTree.LeafKeepsTree` | frontend/src/App.tsx:518 | a missing child put under its parent keeps the nodes a tree in which each run of names leads to one node |
| `ConnectionTree.PushKeepsTree` | frontend/src/App.tsx:524 | so does adding a connection to a node, and the traversal shows it once more |
| `ConnectionTree.Builder.constructor` | frontend/src/App.tsx:512 | the root alone is a tree |
| `ConnectionTree.Builder.Child` | frontend/src/App.tsx:518-519 | the child for a name is found or made, and no other run of names appears |
| `ConnectionTree.Builder.Ensure` | frontend/src/App.tsx:513-522 | returns the node to which the names of the path lead; exactly its leading runs are added; no connection moves |
| `ConnectionTree.Builder.Add` | frontend/src/App.tsx:524 | the traversal shows one connection more, under its own path |
| `ConnectionTree.EnsureAll` | frontend/src/App.tsx:523 | after the groups the nodes are exactly the leading runs of their names |
| `ConnectionTree.Build` | frontend/src/App.tsx:512-524 | one node for each distinct leading run of names of all paths; the traversal shows every connection exactly as often as it was given, under its path |
| `ConnectionMoves.MergeSecrets` | internal/api/connections.go:239-247 | blank secrets are the current ones, others the new ones, and nothing else changes |
| `ConnectionMoves.SharedIdIff` | internal/api/connections.go:248-251 | splitting "org:local" gives both back exactly for non-empty ids and an organization id without a colon |
| `ConnectionMoves.PersonalIdIsNotSplit` | internal/api/connections.go:248-251 | a local id is never taken for a shared one |
| `ConnectionMoves.ConnectionApi.CreateConnection` | internal/api/connections.go:37-74 | stores and answer of a create, for every number of calls that succeed |
| `ConnectionMoves.ConnectionApi.UpdateConnection` | internal/api/connections.go:112-197 | stores and answer of an update, for every number of calls that succeed |
| `ConnectionMoves.ConnectionApi.MoveToOrganization` | internal/api/connections.go:153-174 | the same for its half that writes an organization |
| `ConnectionMoves.ConnectionApi.MoveToVault` | internal/api/connections.go:175-197 | the same for its half that writes the vault |
| `ConnectionMoves.ConnectionApi.Locate` | internal/api/connections.go:119-148 | the connection that an external id names, or why there is none |
| `ConnectionMoves.ConnectionApi.DeleteConnection` | internal/api/connections.go:199-212 | stores and answer of a delete, for every number of calls that succeed |
| `ConnectionMoves.ConnectionApi.RemovePersonalConnection` | internal/api/connections.go:214-226 | stores and answer of a removal from a vault |
| `ConnectionMoves.ConnectionApi.IndexOf` | internal/api/connections.go:137-142 | the first place of an id, or the length |
| `ConnectionStores.PutAt` | internal/api/connections.go:186-195 | replacing or appending changes what is found under that id only and keeps ids distinct |
| `ConnectionStores.WithoutAt` | internal/api/connections.go:219-223 | cutting out a place removes that id and no other |
| `ConnectionConservation.FoundSource` | internal/api/connections.go:119-148 | what is found is stored in the place and under the local id that make up the external id |
| `ConnectionConservation.UpdateEffect` | internal/api/connections.go:112-197 | for every number of calls that succeed: the connection has moved, or is stuck on the way as far as the calls got; once written it is the update, field by field, with blank secrets from the connection found; every other connection, group and setting is as before |
| `ConnectionConservation.UpdateStops` | internal/api/connections.go:113-152 | an update that fails before its move changes nothing |
| `ConnectionConservation.SuccessfulUpdate` | internal/api/connections.go:149-197 | after success the connection is at its destination and nowhere else: each field as in the update, the local id, and each secret that is blank in the update as it was stored before; all else is unchanged and every id still has one place |
| `ConnectionConservation.MoveNeverLoses` | internal/api/connections.go:153-174 | into an organization, or within a vault, no failing call leaves zero copies, whatever copies there were |
| `ConnectionConservation.RunNeverLoses` | internal/api/connections.go:37-226 | over every run in which any call may fail, a connection never deleted and never moved out of an organization into a vault keeps a copy |
| `ConnectionConservation.RetryFinishesMove` | internal/api/connections.go:112-197 | after an update that failed anywhere, the same one repeated until it succeeds leaves the connection at its destination alone |
| `ConnectionConservation.MoveDuplicatesIff` | internal/api/connections.go:162-172 | two copies are left exactly when the destination was saved and the source was not |
| `ConnectionConservation.MoveToVaultLosesIff` | internal/api/connections.go:175-196 | out of an organization the connection is lost exactly when the last call, saving the vault, is the one that fails |
| `ConnectionConservation.MoveToVaultLosesExample` | internal/api/connections.go:175-196 | stores and an update for which that happens, for any valid connection |
| `ConnectionConservation.SuccessfulCreate` | internal/api/connections.go:52-73 | a fresh id is in one place, the one asked for; all else is unchanged |
| `ConnectionConservation.CreateAnswers` | internal/api/connections.go:63-72 | the answer is the external id of the new connection |
| `ConnectionConservation.SuccessfulDelete` | internal/api/connections.go:199-226 | the named connection is gone and all else is unchanged |
| `ConnectionConservation.FailuresChangeNothing` | internal/api/connections.go:199-226 | a failed create or delete leaves all stores as they were |
| `ConnectionConservation.RequestConserves` | internal/api/connections.go:37-226 | create adds one id, delete removes one, update keeps them all, each id in one place |
| `ConnectionConservation.RunConserves` | internal/api/connections.go:37-226 | over every run of successful requests each local id is in exactly one store and their number is the start plus creations minus deletions |
| `ConnectionConservation.CreateAcceptedIff` | internal/api/connections.go:37-73 | with enough calls a creation is done exactly when there is a name, a bucket, a valid path and, for an organization, a group shared with it |
| `ConnectionConservation.UpdateAcceptedIff` | internal/api/connections.go:112-197 | the same for an update of a connection that the user can reach |
| `ConnectionConservation.DeleteAcceptedIff` | internal/api/connections.go:199-226 | a deletion is done exactly when the id names a connection that the user can reach |
| `ConnectionConservation.StrangersAreRefused` | internal/api/connections.go:227-232 | who shares no group with an organization is refused everything that concerns it, and nothing changes |
| `ConnectionListing.WithOrganizations` | internal/httpapi/server.go:979-1013 | shows the personal connections and then each relabelled one of the user's organizations once, by organization name and key |
| `ConnectionListing.ShownIff` | internal/httpapi/server.go:1000-1009 | a user sees exactly the personal connections and those of organizations that share a group with the user, with the key for a blank id or name and all else as stored |
| `ConnectionListing.ConnectionValue` | internal/httpapi/server.go:970-978 | finds a connection exactly when one is shown under the id |
| `ConnectionListing.ShownIsFound` | internal/httpapi/server.go:1000-1009 | a shown id leads an update or delete back to the connection that is shown |
| `ConnectionListing.ShownIdsDiffer` | internal/httpapi/server.go:970-1009 | no two connections are shown under one id |
| `AuditEvents.AuditTable.Append` | internal/vault/audit_repository.go:54-63 | a row with a new id goes to its place in key order; a known id is refused |
| `AuditEvents.InsertKeepsTable` | internal/vault/audit_repository.go:54-63 | the table stays ordered with one row an id |
| `AuditEvents.AuditTable.Cursor` | internal/vault/audit_repository.go:22-29 | the latest key, or empty texts |
| `AuditEvents.AuditTable.ListAfter` | internal/vault/audit_repository.go:31-52 | the first rows beyond the key, at most the limit if that is from 1 to 500 and otherwise 100 |
| `AuditEvents.AboveTaken` | internal/vault/audit_repository.go:31-37 | from the key of the n-th row listed, the rows beyond are those after it: no row is skipped or listed again |
| `AuditEvents.List` | internal/vault/audit_repository.go:65-125 | a page, and whether there are more rows after it |
| `AuditEvents.ReadPages` | internal/httpapi/server.go:196-211 | following the next offset gives each matching row once, in order |
| `AuditEvents.ReadPagesWhileArriving` | internal/httpapi/server.go:196-211 | while rows arrive between the pages, each at the place of its key, no row that was there at the start is left out |
| `AuditForwarder.Batch` | internal/audit/forwarder.go:19-21 | the batch is the setting from 1 to 500, and otherwise 100 |
| `AuditForwarder.Forward` | internal/audit/forwarder.go:29-40 | one round of the loop: what is sent, as its JSON unchanged, and the cursor after it |
| `AuditForwarder.RunForwarder` | internal/audit/forwarder.go:15-48 | any number of rounds, with failing polls and rows arriving in between, are a run of the step system; what is written is the JSON of its output |
| `AuditForwarder.OutputStrictlyIncreases` | internal/audit/forwarder.go:28-40 | in every interleaving the output is rows of the table in strictly increasing key order |
| `AuditForwarder.ForwardedInTime` | internal/audit/forwarder.go:28-40 | a row above the cursor is sent once the polls have room for it, for the rows before it and for all that arrive meanwhile |
| `AuditForwarder.QuietPollsDrain` | internal/audit/forwarder.go:28-40 | with no arrivals, polls with room for what is pending send exactly that |
| `AuditForwarder.EnoughQuietPolls` | internal/audit/forwarder.go:28-40 | ceil(pending / batch) quiet polls are enough for that |
| `AuditForwarder.ForwardedIff` | internal/audit/forwarder.go:22-47 | a row is sent exactly when it arrived above the cursor and the cursor has reached it; a late one never is |
| `AuditForwarder.OutputIsRangeIff` | internal/audit/forwarder.go:22-47 | the output is every row between the first and the present cursor exactly when no row arrived late in between |
| `AuditForwarder.ArrivalIsLostIff` | internal/audit/forwarder.go:22-47 | in every state: a row that arrives is never sent, whatever happens next, exactly when its key is not beyond the cursor |
| `AuditForwarder.TimelyIsSent` | internal/audit/forwarder.go:28-40 | a row beyond the cursor has been sent, or polls still send it, whatever happens next |
| `AuditTimes.FractionIsLateAfterWholeSecond` | internal/audit/logger.go:30 | a time with any fraction sorts before its whole second, and such an event is lost to the forwarder whatever happens later |
| `AuditTimes.EqualDigitsSortByTime` | internal/audit/logger.go:30 | fractions with equally many digits, trimmed or not, sort as their values |
| `AuditTimes.NanosInOrder` | internal/audit/logger.go:30 | trimmed fractions are ordered in nanoseconds as their digits are as texts |
| `AuditTimes.TextOrderIsTimeOrderIff` | internal/audit/logger.go:30 | of two different times in one second the texts are ordered as the times exactly when neither fraction extends the other |
| `AuditTimes.LongerFractionExample` | internal/audit/logger.go:30 | 120 ms sort before 100 ms |
| `AuditTimes.DifferentSecondsInOrder` | internal/audit/logger.go:30 | times in different seconds sort as the seconds |
| `AuditTimes.LaterEventIsLostIff` | internal/audit/forwarder.go:28-40 | in every state: a later event of the second that the cursor is in is lost for good exactly when its fraction extends that of the cursor |
| `AuditTimes.LaterSecondIsNeverLost` | internal/audit/forwarder.go:28-40 | in every state: an event of a later second has been sent, or polls still send it, whatever happens after its arrival |
| `RateLimiter.EntryKeyInjective` | internal/httpapi/security.go:206 | different clients or paths never share an entry |
| `RateLimiter.Limiter.Allow` | internal/httpapi/security.go:204-220 | decision and entries after a request |
| `RateLimiter.Limiter.Handle` | internal/httpapi/security.go:166-194 | each path is limited by its own setting and the window or a minute; with the limiter off, a setting that is not positive, or another path, a request is served untouched |
| `RateLimiter.AtMostTwiceTheLimit` | internal/httpapi/security.go:204-220 | in any span of one window length, both ends included, one client is served at most twice the limit on one path |
| `RateLimiter.TwiceTheLimitIsReached` | internal/httpapi/security.go:204-220 | that bound is reached for every limit and window |
| `RateLimiter.WindowServesTheLimit` | internal/httpapi/security.go:210-219 | each window serves the smaller of the limit and the requests in it, the first ones |
| `RateLimiter.OthersDoNotTouch` | internal/httpapi/security.go:206-219 | requests of other clients or paths leave the entry alone |
| `RateLimiter.OnlyOwnServedRequestsMatter` | internal/httpapi/security.go:204-220 | without all rejected requests and those of others, every next request fares the same |
| `FolderDelete.DeleteAll` | internal/service/s3/service.go:599-614 | batches of 1000 and a last one of at least one that cover the list once, in order; stops at the first rejection, and without one deletes all |
| `FolderDelete.CollectVersions` | internal/service/s3/service.go:409-431 | over any paging, exactly the identified versions and delete markers listed |
| `FolderDelete.CollectedVersions` | internal/service/s3/service.go:416-425 | these are exactly what is stored with a version under the prefix |
| `FolderDelete.DeletePage` | internal/service/s3/service.go:438-452 | after a page only keys beyond the token are left under the prefix |
| `FolderDelete.DeleteByPages` | internal/service/s3/service.go:435-454 | the fallback ends, and on success leaves no object under the prefix |
| `FolderDelete.DeleteFolder` | internal/service/s3/service.go:408-456 | nothing outside the prefix changes, successful or not; success leaves no version or marker, and no plain object exactly unless the store had both kinds there; without failing calls it succeeds |
| `Archive.SafeArchivePath` | internal/service/s3/service.go:336-346 | accepts exactly non-empty relative names without a ".." segment |
| `Archive.SafeNameIff` | internal/service/s3/service.go:336-346 | safe is every name whose first segment is not empty and none of whose segments is ".." |
| `Archive.SafeNamesStayInside` | internal/service/s3/service.go:336-346 | following such a name never leaves the directory it is unpacked in |
| `Archive.ArchiveObject` | internal/service/s3/service.go:290-327 | the int64 test neither overflows nor differs from the test on unbounded sums |
| `Archive.TotalBounded` | internal/service/s3/service.go:299-303 | the sizes of the objects archived so far never sum to more than the limit |
| `Archive.ArchivePages` | internal/service/s3/service.go:283-333 | the loop over pages archives what one pass over the whole listing would |
| `Archive.ArchiveSucceedsIff` | internal/service/s3/service.go:283-333 | archiving succeeds exactly when all listed objects below the prefix have safe names, can be read and have sizes that fit the limit together |
| `Archive.ArchiveOutcome` | internal/service/s3/service.go:283-333 | after any number of objects all of those below the prefix are archived, or archiving has stopped at the first that is unsafe, too large for the rest or unreadable |
| `Archive.FileNames` | internal/service/s3/service.go:291-298 | an entry's name is the rest of the key after the prefix and safe |
| `Archive.DownloadArchive` | internal/service/s3/service.go:255-334 | for any paging: done means that the entries are the listed objects below the prefix in order, each under the rest of its key with its own body, and that their sizes sum to no more than the limit; stopped names the first object for which that was impossible; if all pages can be listed, done is answered exactly when it is possible |
| `Backup.Store.ExportBundle` | internal/vault/backup.go:44-61 | every row of the four tables once, in key order; fails only if a query does |
| `Backup.ValidateKeys` | internal/vault/backup.go:113-133 | accepts exactly lists of distinct non-empty keys |
| `Backup.ValidateAudit` | internal/vault/backup.go:134-143 | the same for audit events, with valid JSON, naming the fault of the first bad row |
| `Backup.ValidateExportBundle` | internal/vault/backup.go:102-145 | accepts exactly the good bundles, and names the first fault in the order of the checks |
| `Backup.Store.ImportBundle` | internal/vault/backup.go:63-100 | all or nothing: any failure leaves the old tables; an accepted bundle never breaks a primary key, and the error is that of validation unless a call to the database failed |
| `Backup.ImportRestoresExport` | internal/vault/backup.go:44-100 | importing an export gives back all four tables exactly, into any database |
| `Backup.ExportAcceptedIff` | internal/vault/backup.go:102-145 | an export is accepted exactly when no key is empty and all audit JSON is valid |
| `Backup.ExportListsImport` | internal/vault/backup.go:44-100 | exporting a keyed table after importing it lists its records again |
| `Backup.ExportSortsAuditEvents` | internal/vault/backup.go:44-100 | audit events of an accepted bundle come back once each, in key order |
| `Backup.ExportAfterImport` | internal/vault/backup.go:44-100 | so all four tables of an accepted bundle come back in a later export |

## Left out

- Handlers: rows that cite one model its logic after authentication and decoding; sessions, cookies, CSRF,
  routing, headers, logging and audit records of requests are not part of this model.
- GroupRequests.Store.RenameConnectionGroup: models one scope, personal or one organization; the two branches of the
  handler do the same to either, and resolving the organization is modelled with the connections.
- GroupRequests.ListingIsPrefixClosure: for paths without empty segments only; with them the inserted paths skip the
  empty ones.
- ConnectionTree.Build: children are kept in insertion order in a list of nodes that refer to each other by index,
  in place of nested maps; sorting by name for display is not modelled.
- MultipartPool.CanStep: fairness is not modelled; it says that some step can be taken, and RunsEnd that there are
  finitely many.
- UploadServer.Server.UploadPart: a write that fails leaves the file as it was; a partly written one is not modelled.
- UploadServer.Server.UploadComplete: temporary directories that early returns leave behind are not tracked.
- UploadServer.OrderedUploadParts: 2^31 - 1 parts or more, where the counter wraps, are excluded; S3 allows 10000.
- FolderDelete.DeleteFolder: the single-object branch, which reads a digest first, is not modelled.
- Archive.DownloadArchive: entries are names and contents; the zip and tar encodings, and what a failed copy leaves
  in the output, are not modelled.
- Backup.Store.ImportBundle: isolation of the transaction is the database's; the deletes are the empty start of it.
- AuditForwarder.RunForwarder: waiting between polls is not modelled; rows arrive between one query and the next,
  which is all that the queries can tell apart.
- AuditEvents.List: filters are SQL; the matching rows, latest first, are an input.
- ConnectionMoves.ConnectionApi.UpdateConnection: the S3 test of a connection is a call that succeeds or fails.
- Connections kept by organizations provisioned from Helm values are shared in memory and edited before the save;
  they are not modelled as source or target of a move.
- Lost updates between concurrent connection or group requests: nothing is locked across load and save.
- Order of Browse and Search results: the comparator is not an order for some names, and only members would remain.
- Encryption, hashing, JSON and time parsing are inputs; SQL text, migrations and the AWS SDK are not modelled.
- The single request upload, presigned links, OIDC, TLS pools and configuration hold one-branch facts only.
