# Verified model of the artifact server

A Dafny 4.11 model of the Go server under `server/`, with proofs. `dafny verify dfyconfig.toml` checks the whole
project. The server keeps three stores that no transaction spans - file rows, tag rows (both in SQLite) and blobs
(a directory or an object store) - and a writer publishes snapshots of the database that read-only replicas follow.

## What is modelled

**Requests over three stores.** `Records` is the database: the statements and transactions of
`server/shortlink.go` and `server/tag.go`, each database call of which may fail. `Protocol` lets any number of
uploads, deletions, tag changes and reads run side by side: a state holds the stores and every request in flight with
its program counter and locals, an action is one atomic database or blob store call, any call may fail, and `Stop`
kills a request between two calls (a crash is `Stop` for all of them). `Protocol.Inv` is the inductive invariant;
`Guarantees` states what follows for every run; `Catalogue` is the specification clients see (live files, and the tags
that resolve to them), which every action refines; `Races` pins down the two statements of the code's comments that
interleaving breaks, `NameRaces` which pairs of files that leaves under one name for good, `PermissionRaces` the effects
that interleaving lets a request have without the permission they cost, and `Leftovers` the blobs that nobody will ever
serve or remove. `Handlers` is the server object itself, with its handlers in the order of their checks and
effects. Each handler performs, as ghost state, the actions of the protocol it carries out, so everything proved of all
runs holds of the server between any two requests; `Uploads` and `Effects` hold the contract of an upload, outcome by
outcome, and compare the permissions it demands with the effects it has.

**Streams.** `Streams` and `BlobStores` are the size cap and the two `Put`s over a stream cut into pieces in any
way, its end reported with or after the last bytes. `RangedReader` is the lazy ranged reader of the object store and
the limited copy out of it; its requests are `bytes=N-` as in section 14.1.2 of RFC 9110.

**Replication.** `Publisher` is the writer's publisher with other requests' writes landing between any two of its
calls, `PublisherTiming` its timing over whole runs, `Replica` the download and swap of a follower, and `Boot` what a
missing local database means, over whole lives of crashes, lost volumes and restarts.

**Text.** `TagSyntax` parses and renders tags, `LikeSearch` is the search escaping against SQLite's `LIKE`, and
`Keys` the keys of blobs and snapshots.

## Conventions

- The outside world is a parameter. `failAt` numbers the first database call of a method that fails (`None`: none);
  `draws` are the random slugs; `env` bundles the failures around one request; `response` is what the object store
  answers.
- Queries without an order (`LIMIT 1`) may answer any matching row (`IsAnswerByName`).
- `content`, `snapshots`, `served` and the server's `states` and `actions` are histories: nothing the server does
  depends on them.
- Assumed: one writer with its own data directory, atomic and durable transactions, a strongly consistent object store
  with atomic replacement, snapshot copies within the size limit, and a change counter that every commit raises. The
  answer to a replica's download may carry any bytes, and only verified files are ever served. That a replica knows
  *which* version it serves needs more: distinct entity tags (`TagsAreDistinct`), a verification that rejects torn files
  (`TornNeverVerifies`), and a transfer of the served snapshot that was at worst cut short (`servedUncorrupted`).

## Where the code and its comments differ

The model follows the code in each case.

- `server/tag.go:331` says the order of retagging and sweeping matters. It does only if a file superseded itself, which
  never happens (`SweepOrder`).
- `server/shortlink.go:353` and `server/tag.go:148` say tags only describe live files. That fails exactly when a tag
  request or an upload attaches tags to a file deleted since it last looked (`TagsStayLiveExactly`, with a run that
  leaves such a row behind, `TagOnADeletedFile`). Tag links are unaffected: they filter to live files.
- `server/shortlink.go:158` says one live record has a name outside append-only mode. Two concurrent uploads of a name
  leave two (`TwoUploadsOneName`). For a moment every superseding upload does (`NamesStayUniqueExactly`); what stays is
  exactly what some action has stranded: going live beside a file other than the one to be retired or without a
  read-back, or the end of the only upload that was to retire one of the two (`StrandedExactly`, `NamesAtRest`). With
  requests handled one at a time it fails if and only if an upload that may supersede a live file is finalized but reading the row back or committing
  the closing transaction fails (`UploadsKeepTheTablesInOrder`; `FailedRetirementLeavesTwoLive` performs it).
- `server/upload_file.go:108-129` checks what an upload costs before it happens. Between the check and the effect other
  requests can change the cost. An upload supersedes a file unasked if and only if one of its name went live in between
  and still is (`UnpaidRetirement`, with a run, `RetiredWithoutAsking`). An upload or tag add takes a tag off a file
  unasked if and only if in between one of its tags was put on another file, or any tag on the superseded one, and is
  still there (`UnpaidTagRemoval`, with a run, `TagTakenWithoutAsking`).
- `server/upload_file.go:273` reclaims the superseded blob "best-effort", and `discard` ignores its errors. The actions
  that leave a blob nobody serves or removes are exactly those of `LeaksExactly`; a failed finalizing update and a failed
  listing just before the reclaiming are among them.
- `server/storage.go:41` says a failed `Put` leaves nothing behind. Under a key that was free, the file store's leaves
  the beginning of the stream exactly when the file was created and removing it fails (`FailedFilePutLeavesABlob`). The
  object store's `Put` cleans up only after an oversized stream; `S3Leaves` is the exact condition, and a complete upload
  whose answer is lost is enough (`FailedObjectPutLeavesABlob`).
- A cap equal to the largest 64-bit integer overflows in `newCapReader`, and then every `Put` fails as too large
  (`Fits`).
- A boot without a store configured starts an empty database whatever was published before, like one in `ignore` mode.
- With `ART_DB_RESTORE=auto`, a configured store and nothing published, a deployment can never start
  (`AutoNeverStarts`).
- A writer's boot that fails after the database was opened (`server/db.go:137-148`) leaves a new, empty database behind
  wherever it might have started with one, and the next boot takes it for the writer's own (`BootDatabase`). Nothing
  published is lost by that unless the restore mode was `ignore` or no store was configured (`OnlyForgettingBreaksOrder`).
- A read-only instance that finds a local file opens it and never follows the writer (`BootDatabase`).

## Model

| member | source | states |
|---|---|---|
| Protocol.EveryActionKeepsInv | server/upload_file.go:134-278 | whatever every other request is in the middle of, any action of any request, succeeding or failing, keeps the invariant that ties rows, tags, blobs, snapshots and every in-flight request together, and touches no pending row or blob but its own |
| Guarantees.LiveFilesAreWhole | server/upload_file.go:148-246 | at every moment of every run a live file's blob is under its key, holds exactly the bytes its upload streamed before its finalize, and has the recorded size |
| Guarantees.ContentWasStreamed | server/upload_file.go:153-238 | the settled content of a slug is what the actions of its upload sent, up to one finalizing action of the run |
| Guarantees.BlobsOutliveTheirFiles | server/delete_file.go:32-53 | an action that removes or changes a blob does so only when its file is not live, and when the file is pending only its own upload does |
| Guarantees.OneActionMovesOneStage | server/shortlink.go:286-361 | one action moves a slug at most one step along absent, pending, live, deleted (or pending to deleted), never back |
| Guarantees.RowsOnlyAdvance | server/shortlink.go:23-38 | over any stretch of any run no row vanishes, name, key and type of a slug never change, size and date are fixed once live, and settled contents stay what they are |
| Guarantees.OneLinkOneContent | server/shortlink.go:364-382 | any two successful reads of one short link in a run, from the writer or from any snapshot, gave the same bytes |
| Guarantees.ReplicasServeWhatTheWriterHad | server/serve_file.go:41-51 | a slug resolved in any past committed tables and opened at any later moment yields the writer's bytes for it or no blob, never other bytes |
| Guarantees.SnapshotsAreCommittedStates | server/db_snapshot.go:122-133 | what replicas look names, tags and slugs up in are, in order, exactly the tables the writer had committed at each copy |
| Guarantees.EveryActionIsOneOperation | server/tag.go:269-379 | under every interleaving each action is invisible to clients or exactly one operation (publish, supersede, remove, remove tag) on live files and resolved tags |
| Guarantees.UploadsShowAtMostTwice | server/upload_file.go:238-261 | in every run at most two actions of one upload change what clients see |
| Guarantees.DiscardedUploadsNeverShow | server/upload_file.go:148-236 | an upload that is being or has been discarded never changed what clients see |
| Races.TagsStayLiveExactly | server/tag.go:148-166 | an action keeps "every tag is on a live file" if and only if it does not attach tags to a file that died since the request looked |
| Races.TagOnADeletedFile | server/tag_handlers.go:144-178 | a complete run, all requests finished, that leaves a tag row on a dead file |
| Races.NamesStayUniqueExactly | server/shortlink.go:158-177 | an action keeps "one live file per name" at every instant if and only if it does not finalize an upload whose name is live |
| NameRaces.StrandedExactly | server/upload_file.go:238-261 | under every interleaving, two live files of one name that no upload is about to resolve are there after an action if and only if they were before and both still live, or the action is one of the listed ones that strand them |
| NameRaces.StrandedForGood | server/upload_file.go:238-261 | over every run, the stranded pairs are exactly those that some action has stranded and that are both still live |
| NameRaces.NamesAtRest | server/shortlink.go:158-177 | in every run, whenever all requests have finished, names are unique if and only if no pair that some action stranded is still live |
| Leftovers.LeaksExactly | server/upload_file.go:148-278 | under every interleaving, a blob becomes nobody's if and only if the action lets go of it (a failed finalizing update, listing or removal, or a request's end) and no other request has it in hand |
| Leftovers.NothingLeftExactly | server/delete_file.go:32-53 | over every run, no blob was ever left over if and only if no action leaked one |
| Leftovers.BlobsAtRest | server/storage.go:38-50 | in every run without a leak, whenever all requests have finished the stored blobs are exactly those of the live files |
| Races.TwoUploadsOneName | server/shortlink.go:286-309 | a complete run of two uploads that ends with two live files of one name |
| PermissionRaces.DemandIsExact | server/upload_file.go:289-321 | until an upload goes live, its tags cost tag:remove if and only if its closing transaction, committed at that moment, would take a tag off some file |
| PermissionRaces.AddDemandIsExact | server/tag_handlers.go:162-178 | the same for a tag add |
| PermissionRaces.WouldTakeWhat | server/tag.go:333-361 | the closing transaction takes a tag off a file if and only if some tag is on another file and asked for, or on the superseded file |
| PermissionRaces.OnlyAttachingMovesTags | server/tag.go:166-176 | an action puts a tag on a file it was not on if and only if it attaches it there |
| PermissionRaces.UnpaidTagRemoval | server/upload_file.go:222-261 | over any run, a request that would have taken no tag when it was decided takes one at a later moment if and only if in between a tag was attached in its way and is still there |
| PermissionRaces.TagTakenWithoutAsking | server/upload_file.go:222-261 | a run in which the closing transaction of an upload takes a tag off a file, though at the decision its tag was on none |
| PermissionRaces.OnlyFinalizeTakesName | server/upload_file.go:116-134 | an action makes a free name taken if and only if it finalizes an upload of that name |
| PermissionRaces.UnpaidRetirement | server/upload_file.go:116-134 | over any run, a name that was free at the check is taken at the reservation if and only if a file of it went live in between and still is |
| PermissionRaces.RetiredWithoutAsking | server/upload_file.go:116-134 | a run in which an upload retires a file although the name was free when it checked |
| Catalogue.ReserveIsInvisible | server/shortlink.go:286-309 | reserving a row changes nothing a client sees |
| Catalogue.FinalizePublishes | server/shortlink.go:313-318 | finalizing a pending row adds exactly that file, without tags, to what clients see |
| Catalogue.AbandonIsInvisible | server/shortlink.go:322-328 | abandoning an upload that is not live changes nothing a client sees |
| Catalogue.SoftDeleteRemoves | server/shortlink.go:332-362 | a soft deletion removes exactly the file and the tags resolving to it, and nothing when the slug is not live |
| Catalogue.ApplyUploadSupersedes | server/tag.go:333-361 | the closing transaction of an upload is, for clients, moving the requested tags to the new file (or to nowhere if it is dead) and removing the superseded one |
| Catalogue.DropTagRemovesTag | server/tag.go:303-316 | detaching a tag removes it from sight exactly when it resolves to that file |
| Catalogue.LookupByTag | server/tag.go:365-379 | the tag lookup answers what the visible catalogue says |
| Records.InsertUniqueRecord | server/shortlink.go:115-146 | succeeds if and only if some attempt draws a free slug before any call or draw fails, the earlier ones having collided, and otherwise leaves the table unchanged; it runs out of slugs if and only if all eighty draws were taken, and blames the random source if and only if that failed first |
| Records.Database.FindLiveRecordByName | server/shortlink.go:160-172 | answers some live record of the name, or none only when there is none |
| Records.Database.ReserveUpload | server/shortlink.go:286-309 | all or nothing: one new pending row under a fresh slug, reporting untouched the live record to be superseded, none in append-only mode |
| Records.Database.FinalizeUpload | server/shortlink.go:313-318 | the update may take effect although reading the row back fails |
| Effects.AbortedIsUntouched | server/shortlink.go:322-328 | whichever of the two cleanup statements fails, abandoning a reserved upload leaves every other row and every tag as they were before it was reserved, and its own row deleted and no longer pending once the first works |
| Records.Database.SoftDeleteBySlug | server/shortlink.go:332-362 | atomic: on any failure the tables are as before, on success the live row is retired and its tags are gone |
| Records.Database.ApplyUploadTags | server/tag.go:333-361 | atomic tag move, sweep and retirement, committed if and only if no call fails and the file has a row, or there is nothing to do |
| Records.Database.AddTagsToSlug | server/tag.go:269-299 | atomic; moved lists exactly the tags whose owner changed, each with its previous owner, and the listing is what the file now has |
| Records.Database.RemoveTagFromSlug | server/tag.go:303-316 | reports removal if and only if the tables changed, and a tag on another file is left alone |
| Records.Database.TagsOwnedByAnotherFile | server/tag.go:252-264 | exactly the other files that own one of the tags |
| Records.SweepOrder | server/tag.go:331-361 | retagging before sweeping gives the same tables as the other order if and only if the file does not supersede itself or no tags are given |
| Records.AdvancesNeverReverses | server/shortlink.go:23-38 | rows that only advance never go back a stage |
| Handlers.Server.UploadFile | server/upload_file.go:26-287 | which outcome it is, and its reason, follow from the request and the calls that fail; a refusal changes nothing and names the first check that fails, an abandoned upload leaves no visible change, its row as far deleted as the cleanup got, and no blob but its own, one that went live has exactly the rows, tags and blobs that the calls that worked call for, and held every permission its effects cost; the server stays where a run of the protocol leaves it |
| Handlers.Server.Begin | server/upload_file.go:108-142 | admits an upload if and only if what is asked before the body is granted and a row can be reserved; refusing changes nothing and names the first check that fails, admitting means one row is reserved and file:delete was held if a live file has the name |
| Handlers.Server.StoreBody | server/upload_file.go:153-172 | the body is stored whole if and only if it ends cleanly, fits the cap and the disk takes it, and otherwise the upload is discarded |
| Handlers.Server.UploadTagPermissions | server/upload_file.go:297-321 | demands tag:add if and only if tags are given, and first; tag:remove if and only if one of them is on some file or the superseded file has any |
| Handlers.Server.DecideTags | server/upload_file.go:174-236 | the tags before and after the file, parsed and de-duplicated, and all they cost is held; or the one thing that goes wrong first: the form, a label, a lookup, or a permission they cost, adding before taking |
| Handlers.Server.Discard | server/upload_file.go:148-151 | drops the upload's blob, row and tags as far as calls succeed, by protocol actions |
| Handlers.Server.Publish | server/upload_file.go:238-278 | which of going live, retagging, listing and reclaiming fails decides the outcome, and the outcome the exact tables and blobs |
| Handlers.Server.DecideAdd | server/tag_handlers.go:126-176 | a tag add is cleared, and refused for want of tag:remove, each if and only if: the tags parse, the file is live, the lookups work and, for the refusal, one of the requested tags is on another file and tag:remove is not held |
| Handlers.Server.AddFileTags | server/tag_handlers.go:111-198 | succeeds if and only if it is cleared and the transaction commits, and fails for the first check or call that does; success puts the distinct tags on the file with an exact moved map, a failure changes nothing |
| Handlers.Server.RemoveFileTag | server/tag_handlers.go:202-252 | succeeds if and only if it is allowed, the calls work and the tag is on that file, and removes just that; each failure has the one cause that comes first, and only a failed listing afterwards reports failure for a change made |
| Handlers.Server.DeleteFile | server/delete_file.go:16-66 | succeeds if and only if it is permitted, the instance neither read-only nor append-only, the file live and every call works; each failure has the one cause that comes first; a failed blob removal leaves the row deleted and the blob behind, every other failure changes nothing |
| Handlers.Server.ServeFileRecord | server/serve_file.go:41-51 | unless the store fails to open it, a live file's blob is there, with the recorded size: between requests it is never missing |
| Handlers.Server.ServeSlug | server/shortlink.go:364-382 | answers if and only if the calls work and the file is live, with its bytes; not found if and only if the lookup works and it is not live |
| Handlers.Server.ServeTag | server/serve_tag.go:12-31 | answers if and only if the calls work and the tag parses and resolves to a live file, with that file's bytes; not found if and only if it does not |
| Handlers.FailedRetirementLeavesTwoLive | server/upload_file.go:238-261 | a server after two uploads of one name, one after the other, the second failing in its closing transaction: two live files of the name |
| Uploads.FailedUploadsAreInvisible | server/upload_file.go:116-236 | an upload refused, abandoned or failed before going live leaves live files and resolved tags as they were |
| Uploads.TagsComeFromBothLists | server/upload_file.go:174-216 | an upload's tags are distinct, and are exactly what the labels before and after the file parse to |
| Uploads.UploadsKeepTheTablesInOrder | server/upload_file.go:238-261 | one at a time, any upload keeps tags on live files; names stay unique if and only if it is not an upload cleared to supersede a live file whose row is finalized but whose read-back or closing transaction fails |
| Effects.UploadsCostTheirEffects | server/upload_file.go:289-321 | an upload attaches a tag iff tag:add is demanded, takes one off a file iff tag:remove is, and retires a live file iff file:delete is |
| Effects.TagAddsCostTheirEffects | server/tag_handlers.go:162-178 | a tag add takes a tag off a file if and only if one is on another file, which is when tag:remove is demanded, and never retires a file |
| Effects.UploadTagMap | server/tag.go:325-361 | after an upload the tag map is the old one minus the superseded file's tags plus the requested tags on the new file |
| Effects.UploadsKeepTagsLive | server/tag.go:333-361 | an upload handled alone keeps every tag on a live file |
| Effects.UploadsKeepNamesUnique | server/shortlink.go:286-309 | an upload handled alone keeps names unique; without the retirement it would if and only if nothing was superseded |
| Effects.DeletionsKeepTheTablesInOrder | server/shortlink.go:332-362 | so does a deletion handled alone |
| Effects.TagChangesKeepTheTablesInOrder | server/tag.go:269-316 | so does a tag change on a live file |
| Effects.UntouchedLooksTheSame | server/upload_file.go:148-151 | tables that only gained rows of no live file look the same to every client |
| Effects.FirstMissingPermission | server/token.go:131-138 | none is missing if and only if all are held, and what is named is the first required that is not |
| Streams.CapReader.Read | server/storage.go:86-109 | passes the stream on unchanged, one byte beyond the cap at most, and fails exactly when read again after that |
| BlobStores.FsStorage.CopyBuffer | server/storage_fs.go:35-37 | for every chunking, what is in the file and what is still to come make up the stream |
| BlobStores.FsStorage.Put | server/storage_fs.go:24-59 | for every chunking, a stream that ends cleanly is stored if and only if it fits and nothing fails, exactly and with its length; it is too large if and only if the disk takes what is let through and the cap overflows; a failure leaves something under a free key if and only if the file was created and its removal fails, and then the beginning of the stream; at most one byte beyond the cap is read |
| BlobStores.S3Storage.UploadObject | server/storage_s3.go:139-148 | sends exactly what the capped reader yields and reports how it ended |
| BlobStores.S3Storage.Put | server/storage_s3.go:139-164 | succeeds if and only if the stream ends cleanly, fits and the store answers; fails as too large if and only if the cap overflows; and the exact condition on stream and store under which a failure leaves an object under a free key |
| BlobStores.FailedFilePutLeavesABlob | server/storage.go:39-42 | a concrete failed put into the file store that leaves a blob |
| BlobStores.FailedObjectPutLeavesABlob | server/storage.go:39-42 | a concrete failed put into the object store, with every removal working, that leaves a blob |
| RangedReader.S3ReadSeeker.Read | server/storage_s3.go:218-239 | refines a reader over the whole object: only the bytes at the position come back, an open body is always at the position, an error or end comes only when the body has nothing left, end of file only at or beyond size, and the request fails if and only if there was one and it got no answer |
| RangedReader.S3ReadSeeker.Seek | server/storage_s3.go:241-264 | moves like an in-memory seeker as long as the sum fits 64 bits and refuses it otherwise, drops the body only on a real move, and a refused seek changes nothing |
| RangedReader.S3ReadSeeker.Close | server/storage_s3.go:266-276 | closing drops the body and keeps the position, so reading may go on |
| RangedReader.CopyLimited | server/db_snapshot.go:205-220 | a copy that ends without error reached size or its limit and is a leading part of the object: a transfer cut short never looks complete; one whose answer ends cleanly at or beyond size never fails, and one that fails has copied all there was |
| Publisher.SnapshotPublisher.constructor | server/db_publisher.go:33-55 | a fresh publisher takes the current counter as published and owes nothing |
| Publisher.SnapshotPublisher.SnapshotLooksEmpty | server/db_snapshot.go:268-287 | true exactly for a copy without records over an object of some size, unless the guard is lifted |
| Publisher.SnapshotPublisher.Publish | server/db_publisher.go:114-155 | with writes landing between any two calls, its caller's counter read included, it succeeds if and only if every call works and the guard passes on the rows counted; a success leaves a commit at least as new as the counter it read and remembers, a failure remembers nothing, and no copy without records replaces an object unless the guard is lifted |
| Publisher.SucceedsWithRecords | server/db_publisher.go:114-155 | whatever lands meanwhile, publishing a database that has records succeeds if and only if every call works |
| Publisher.SnapshotPublisher.CleanMeansStored | server/db_publisher.go:82-87 | after a success, equal counters mean the store holds exactly the current database |
| Publisher.SnapshotPublisher.Tick | server/db_publisher.go:75-111 | attempts a publish exactly when the database has been dirty for the delay, never within the delay after the end of the previous attempt, and succeeds exactly when that publish does; successes never outnumber row changes |
| Publisher.SnapshotPublisher.Flush | server/db_publisher.go:161-182 | publishes if and only if changes are outstanding and the publish succeeds, and otherwise remembers nothing new |
| Publisher.RecordsStay | server/db.go:244-253 | a database that has held a record never counts zero records again |
| PublisherTiming.StepKeepsInv | server/db_publisher.go:75-111 | every write and tick keeps the timing invariant |
| PublisherTiming.WritesReachTheStoreInTime | server/db_publisher.go:16-21 | however many writes follow, no write stays out of the store beyond the delay and two tick periods, plus a delay and a period per failed attempt |
| PublisherTiming.NothingMissingMeansClean | server/db_publisher.go:82-87 | no write is missing from the store if and only if the counters agree |
| Replica.SnapshotReplica.DownloadSnapshot | server/db_snapshot.go:192-243 | whatever fails and whatever bytes arrive, the live file changes only to a verified file of the announced size within the limit, which is the version's own unless the transfer was corrupted, and no partial file is left beside it; an answer of the right size that verifies is put in place as it came |
| Replica.SnapshotReplica.Refresh | server/db_replica.go:50-91 | whatever fails and whatever bytes arrive, a verified snapshot stays in place and served, the served version never goes back and lies between the recorded one and the newest seen; a description seen again is left alone, with distinct tags if and only if the version is the recorded one, and then the newest is served; without tags, if and only if size and time are the same; an undisturbed refresh of anything else swaps |
| Replica.SameMeansSame | server/db_snapshot.go:245-257 | with distinct entity tags, two descriptions count as the same if and only if they are of the same version |
| Replica.SnapshotReplica.Boot | server/db.go:107-124 | whatever bytes arrive, a replica that starts serves a verified snapshot, and knows its version unless the transfer was corrupted |
| Boot.Instance.BootDatabase | server/db.go:98-153 | exactly when an instance starts, what it then serves, whether it follows, which refusal it gives, and exactly what file each failing call leaves behind: its own, a restored one, a new empty one, or none |
| Boot.Instance.StartWithoutDatabase | server/db.go:157-200 | an empty database is started exactly where the store says it may be, and with a snapshot published and no restore mode the writer refuses |
| Boot.Instance.CheckSchemaVersion | server/db.go:210-231 | succeeds if and only if the version is current, or an older one of a writer that can be stamped; names a mismatch if and only if the version is newer, or other than the current one on a replica; a failure leaves the stamp, and no record ever changes |
| Boot.AutoNeverStarts | server/db.go:167-181 | over every life in which each boot is in automatic mode, with a store configured, the deployment never comes up, never has a database and never publishes |
| Boot.OnlyForgettingBreaksOrder | server/db_publisher.go:114-155 | each boot (successful or failed at any call), change, copy, put, crash, volume loss or restore keeps published, copied and local tables in order, if and only if it is not a boot, in ignore mode or with no store configured, that creates a file while records are published |
| Boot.PublishedOnlyAdvances | server/db.go:98-200 | over every life without such a boot, no record leaves the published snapshot and none goes back a stage |
| Boot.ForgettingLosesRecords | server/db.go:158-161 | after any such boot, publishing a copy, of no or of any new records, loses every published record not among them |
| Boot.IgnoringLosesRecords | server/db.go:157-161 | a whole life, from an unused deployment, in which a published record is published no more |
| Keys.StorageKeysAreInjective | server/shortlink.go:66-68 | two slugs share a storage key if and only if they are the same |
| Keys.BlobKeysNeverMeetTheSnapshot | server/storage_s3.go:129-137 | no blob's object key is the snapshot's, whatever the two prefixes |
| TagSyntax.ParseUndoesToString | server/tag.go:68-90 | parsing a valid tag's rendering gives the tag back |
| TagSyntax.ParseFindsTheTag | server/tag.go:68-90 | the rendering of a valid tag parses to the tag however much white space is around it |
| TagSyntax.ParseIgnoresWhiteSpace | server/tag.go:69-72 | a label means what it means without the white space around it, and is an empty tag if and only if it is nothing but white space |
| TagSyntax.ParseSplitsAtLastColon | server/tag.go:74-89 | whatever is before the last colon is the name and what is after it the suffix; the error is about the name, else the suffix, else the length |
| TagSyntax.ParseDefaultsTheSuffix | server/tag.go:74-89 | a label without a colon is a name with the default suffix, and which error it gets |
| TagSyntax.ValidNamesArePaths | server/tag.go:114-126 | a name is valid if and only if it is one or more clean segments joined by slashes; the separate checks of its first and last character add nothing |
| Text.TrimmingIs | server/tag.go:69 | trimming takes off all the white space on both sides of a text and nothing else |
| TagSyntax.ParseProducesExactlyValidTags | server/tag.go:68-146 | a tag is valid if and only if some text parses to it |
| TagSyntax.ToStringIsInjective | server/tag.go:50 | two valid tags render alike if and only if they are equal |
| TagSyntax.ColonCountDecides | server/tag.go:74-82 | a text that parses is the name with the default suffix when it has no colon, and otherwise the rendering of its tag, with a single colon |
| TagSyntax.ParseTagList | server/tag.go:95-111 | the parsed tags without repetitions in order of first occurrence, or the error of the first text that does not parse |
| TagSyntax.DedupKeepsFirstOccurrences | server/tag.go:95-111 | de-duplication is distinct, has the same elements, and keeps them in order of first occurrence |
| LikeSearch.SearchFindsExactlySubstrings | server/shortlink.go:249-256 | the LIKE pattern built from a search text matches exactly the texts that contain it, characters being the same if equal or the same ASCII letter in the other case |
| LikeSearch.EscapeIsPerCharacter | server/shortlink.go:223-228 | the three replacements in sequence put one backslash before each special character |
| LikeSearch.BackslashMustGoFirst | server/shortlink.go:223-228 | replacing the backslash last agrees if and only if the text has no wildcard |
| LikeSearch.UnescapedFindsMore | server/shortlink.go:218-228 | without the escape, a search for an underscore would match every text but the empty one |

## Left out

- HTTP, multipart and JSON handling, status codes, headers and content sniffing: a request is its parsed parts.
- Authentication (tokens, sessions, OIDC) and random generation: held permissions and drawn slugs are parameters.
- SQLite itself - write-ahead log, pragmas, `VACUUM`, integrity checking: transactions are atomic updates, a snapshot
  is an atomic copy, verification is a predicate.
- The object store's client library, retries and multipart transfer: the model has its effects on one object map.
- The `created` column of tags, the order and paging of listings, the latest-by-name lookup, file statistics and the
  shortcut for an empty search; NUL characters in searches and SQLite's limit on pattern length.
- Cleaning of display names and MIME types, and the text of the normalised prefixes: the key theorem holds for any.
- Configuration, roles and size parsing, CORS, health, statistics, and the web interface.
- Opening a blob in the protocol is one atomic read of it; reading it in ranges while it is deleted is not interleaved.
- The server object stores its blobs in the file store; the object store is modelled on its own.
- A put of a crashed publisher that the object store completes only after a later publish, two writers at once, and
  `restore-db -force` over an existing database.
- Losing the volume inside the request protocol: records never published are then gone, and their slugs may be drawn
  again. `Boot` covers the published ones.
- Deleting the published object when a copy exceeds the size limit: copies are assumed to fit.
- The `Run` loops, jitter, and the grace period before an old handle is closed.
- Boot.Instance.Download: takes the whole download as one call that works or not and a snapshot as verified when its
  schema is current; its steps are in Replica.
- Handlers.Server.ServeFileRecord: a blob missing under a live record would be answered as a missing file; the model
  proves that this does not happen between requests instead of modelling the answer.
