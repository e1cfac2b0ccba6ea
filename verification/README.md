# TonOps verification model

A Dafny 4.11 model of the parts of TonOps, a ClearML fork, that carry state or a transformation with a
correctness claim, and proofs of those claims. `dafny verify dfyconfig.toml` checks the whole project.

| File | Models |
|---|---|
| `UrlOrder`, `UrlDeletion`, `UrlDeletionLaws`, `UrlDeletionRuns`, `UrlDeletionBounds`, `UrlDeletionCounts`, `UrlDeletionStatus` | the asynchronous URL deletion job: one batch, its laws, whole runs of the loop, how many exceptions and how many failures one call counts against a record, why a record fails and when it is tried again |
| `BatchDelete`, `FileserverJob`, `FileserverCounts`, `FileserverRuns`, `RustfsJob` | the fileserver's batch delete, and the deletion job run against it, in one call and in whole runs, and against the RustFS bucket |
| `DocSearch`, `ProjectionJoin`, `ProjectionHelper`, `ProjectionFields` | field path translation, the glob search, the batched join of a query, the projection fields |
| `ConfigMerge`, `ConfigOverrides`, `ConfigHeap` | the configuration merge: its laws on trees, with override keys, and the in-place method |
| `Uris`, `Migration`, `MigrationLaws`, `MigrationBytes` | migrated URIs, the artifact migration, its crash safety and convergence, the bytes behind moved records |
| `DistributedLock`, `SchemaCache` | the Redis lock as interleaved steps with a clock, and the schema cache |
| `EndpointNaming`, `Shutdown` | naming of external endpoints and shutdown re-entry in the SDK's task |
| `EndpointTable`, `Dataset` | the versioned endpoint table, and the dataset validator |

Code that changes state in place is a class whose methods are proved equal to a function of the old state; the
laws are then proved about that function, with the source's own conditions and constants written out again where a law
would otherwise only speak of itself. External stores (Mongo collection, object store, file tree, Redis key)
are small abstract values. A storage client, a file system call, a network delivery, a clock or a fetch is a
function of the state it is called in that may answer anything, unless a predicate in the contract says otherwise.

## Where the code and an expected property disagree

The code is kept as it is; each case has a concrete counterexample and the exact condition under which the property holds.

- `max_retries` does not bound `retry_count`, and one call can count a record more than once, for two reasons. A client
  exception marks the whole group, not the chunk (`RetriesCanOvershoot`, at every chunk size): over all clients this
  counts at most n exceptions exactly when at most n chunks of the record's group have a path (`ExceptionsIff`), so never
  two for the fileserver, whose chunks hold a whole batch (`FileserverRaisesOnce`). And a reply can name the record's path
  under several reasons when several records ask for it: the urls `/x` and `/x/` do on the fileserver (`TwinsOvershoot`).
  Over all fileservers and networks the count rises by at most n exactly when the path decodes to nothing or at most n
  records of the batch ask for it (`FileserverCountsIff`, `FileserverBoundsIff`). For clients in general `CountsIff` and
  `MaxRetriesBoundsIff` give the exact bound from the number of reasons a reply may give for one path.
- The join is keyed by id alone. Two reference fields that share an id show a mix of two documents (`SharedIdMixes`);
  the join is right exactly when fields that share an id find the same document for it (`Project`).
- The test that skips a joined reference field compares names as text, so `execution.que` hides `execution.queue`
  (`QueueIsHidden`). No document class declares two fields in this relation; the input is a mistyped sub-field that the
  check for invalid fields lets through. Every reference field is covered exactly when each is safe (`JoinCoversIff`).
- The configuration merge is not associative (`NotAssociative`); `MergeAssociative` says exactly when it is.
- A migrated URI holds the percent-encoded key and the deletion job does not decode it: `DeletionOfMigrated` says exactly
  when the job asks for the uploaded key, and `SpaceIsNotDeleted` gives a family for which it does not. A record then
  leaves the collection while its object stays, exactly when no selected record has the object's key as its encoded key
  (`ObjectRemainsIff`). The object of a record that was not selected can go instead: `migrated/a%20b` goes with the record
  of `migrated/a b` (`SpaceDeletesOther`). Only objects of selected records go exactly when every encoded key in the bucket
  is the key of one of them (`OnlyTheirObjectsGoIff`).
- The migration checks the bytes of an object after its upload only. An upload whose bytes are spoiled, but not its length
  and metadata, ends the run; the next run finds that object, skips the upload and moves the record to it
  (`SpoiledModel`). A moved record has its bytes exactly when the run that moved it did not find such an object
  (`MovedVerifiedIff`), hence always with a store that makes none (`MovedIsVerified`).
- Object keys of the migration can collide (`SlashesCollide`), exactly when one task id followed by a slash starts another
  (`OwnKeysIff`); slashes in model and artifact ids are harmless.
- A service file edited in the clock tick of the cache write, or with an older time, is not seen (`OldTimeIsStale`);
  `EditSeenIff` and `FreshIff` say exactly when a call is right.
- A critical section that outlives its time to live breaks the lock and releases a key that is not its own
  (`OverrunBreaks`, `OverrunHappens`); as long as none does, the lock is safe (`MutualExclusion`).
- A lone waiter can raise although the key is free (`LongPauseRaises`), exactly when its pauses may be more than one clock
  tick longer than the time to live (`DefaultWaitIff`).
- Python's `True` equals 1, so a thread with id 1 could enter the shutdown body any number of times
  (`ThreadOneReenters`, `LimitHoldsIff`).
- Counts by class name lose the objects of a class whose name is used again (`RepeatedNameLosesObjects`, `ByClassSum`).

## Model

| member | source | states |
|---|---|---|
| UrlDeletion.DeletionJob.MarkRetryFailed | clearml-server/apiserver/jobs/async_urls_delete.py:37-45 | the two collection updates together count one failure for each id and stamp it; a record is failed exactly when its new count has reached the maximum, and otherwise keeps its status |
| UrlDeletion.DeletionJob.MarkFailed | clearml-server/apiserver/jobs/async_urls_delete.py:48-53 | the ids are failed for good with reason and time, others untouched |
| UrlDeletion.DeletionJob.DeleteChunk | clearml-server/apiserver/jobs/async_urls_delete.py:119-146 | the chunk loop body, whose path index is a dictionary, equals the chunk function on (id, path) pairs; an exception retries the whole group |
| UrlDeletion.DeletionJob.SettleReply | clearml-server/apiserver/jobs/async_urls_delete.py:148-174 | error reports retried, reported paths removed, whoever is in neither retried as not succeeded |
| UrlDeletion.DeletionJob.DeleteGroup | clearml-server/apiserver/jobs/async_urls_delete.py:98-117 | a group without base is given up, a refused connection retries it, otherwise its chunks run in order |
| UrlDeletion.DeletionJob.DeleteChunks | clearml-server/apiserver/jobs/async_urls_delete.py:119-174 | every item is in exactly one chunk, in order |
| UrlDeletion.DeletionJob.DeleteUrls | clearml-server/apiserver/jobs/async_urls_delete.py:92-98 | the batch is grouped by resolved base and every group is worked on |
| UrlDeletion.DeletionJob.LeastRetried | clearml-server/apiserver/jobs/async_urls_delete.py:606-608 | the record taken first has the least retry count of those due |
| UrlDeletion.DeletionJob.LeastUrl | clearml-server/apiserver/jobs/async_urls_delete.py:93 | a first record in the order of the urls |
| UrlDeletion.DeletionJob.Query | clearml-server/apiserver/jobs/async_urls_delete.py:93 | the first 10000 of the selected records by url, in that order and without repetition, or all of them; only equal urls may come in any order |
| UrlDeletion.DeletionJob.Pass | clearml-server/apiserver/jobs/async_urls_delete.py:595-625 | one turn of the loop is idle only if nothing is due, and otherwise works on the company and storage type of a due record with the least retries |
| UrlDeletion.DeletionJob.RunDeleteLoop | clearml-server/apiserver/jobs/async_urls_delete.py:595-625 | the first turns of the endless loop form a run, so the laws of runs apply to them |
| UrlDeletion.LookupIsIdsAt | clearml-server/apiserver/jobs/async_urls_delete.py:148-165 | looking paths up in the index finds exactly the ids collected with them, also for shared paths |
| UrlDeletionLaws.BucketizeContents | clearml-server/apiserver/jobs/async_urls_delete.py:97-98 | grouping loses no record of the batch and invents none |
| UrlDeletionLaws.BatchEvolves | clearml-server/apiserver/jobs/async_urls_delete.py:92-174 | the whole promise of one call: records, remote events and their order, through every branch |
| UrlDeletionLaws.EveryRecordAccounted | clearml-server/apiserver/jobs/async_urls_delete.py:92-174 | every selected record ends removed, or failed, or with a larger count, and then with a failure time read during the call |
| UrlDeletionLaws.RemovedIffReported | clearml-server/apiserver/jobs/async_urls_delete.py:139-167 | a record is removed exactly when the client of its own chunk reported its path deleted |
| UrlDeletionLaws.OthersUntouched | clearml-server/apiserver/jobs/async_urls_delete.py:92-174 | no record outside the batch changes, and none is added |
| UrlDeletionLaws.RetryCountExact | clearml-server/apiserver/jobs/async_urls_delete.py:109-174 | how often each record is counted, from the remote events alone: an exception counts the whole group |
| UrlDeletionLaws.InvariantsKept | clearml-server/apiserver/jobs/async_urls_delete.py:37-45 | out of retries implies failed, failed is absorbing, counts never drop, removal only after a report |
| UrlDeletionRuns.WorkingTurnDecreases | clearml-server/apiserver/jobs/async_urls_delete.py:595-625 | a turn that selects a record strictly lowers the sum of the retries left |
| UrlDeletionRuns.WorkIsBounded | clearml-server/apiserver/jobs/async_urls_delete.py:595-625 | with no new records, the number of working turns of any run is at most the initial sum of retries left |
| UrlDeletionRuns.RunOnward | clearml-server/apiserver/jobs/async_urls_delete.py:595-625 | the invariants hold from the first to the last state of any run |
| UrlDeletionRuns.RunDrains | clearml-server/apiserver/jobs/async_urls_delete.py:595-611 | once a run falls idle with all timeouts over, every handled record was removed on report or has failed |
| UrlDeletionBounds.GroupsTrace | clearml-server/apiserver/jobs/async_urls_delete.py:97-174 | what the remote side sees of a call is a function of the batch alone, not of what the call does to the records |
| UrlDeletionBounds.BucketizeGroups | clearml-server/apiserver/jobs/async_urls_delete.py:97-98 | each base has one group, with the records of the batch that resolve to it in order |
| UrlDeletionBounds.ChunkAsks | clearml-server/apiserver/jobs/async_urls_delete.py:119-146 | a group is asked about once for every chunk that has a path, whatever the client answers |
| UrlDeletionBounds.RaisingCounts | clearml-server/apiserver/jobs/async_urls_delete.py:139-146 | a client that always raises counts each record of the group once for every such chunk, and removes none |
| UrlDeletionBounds.ExceptionsIff | clearml-server/apiserver/jobs/async_urls_delete.py:139-146 | over all clients of a storage, at most n exceptions of a call count against a record exactly when at most n chunks of its group have a path |
| UrlDeletionBounds.WholeBatchChunks | clearml-server/apiserver/jobs/async_urls_delete.py:93-119 | a storage whose chunks hold a whole batch counts at most one exception against a record in a call |
| UrlDeletionBounds.FullGroupAsksOnceIff | clearml-server/apiserver/jobs/async_urls_delete.py:119-137 | a group whose items all have paths is asked about once exactly when it fits one chunk |
| UrlDeletionBounds.RetriesCanOvershoot | clearml-server/apiserver/jobs/async_urls_delete.py:139-146 | for every chunk size c, a batch of c + 1 records of one group with one retry left, all pushed past the maximum by two raising chunks |
| UrlDeletionStatus.BatchFates | clearml-server/apiserver/jobs/async_urls_delete.py:92-174 | in a call a record that stays becomes failed only if its count has reached the maximum or its url resolves to no base or its path raises, keeps its status otherwise, and if it changes at all its reason is what the remote side said of it or why it was given up |
| UrlDeletionStatus.FailedIff | clearml-server/apiserver/jobs/async_urls_delete.py:37-45 | a record with a path and retries left is failed after a call exactly when its count has reached the maximum |
| UrlDeletionStatus.NoBaseFails | clearml-server/apiserver/jobs/async_urls_delete.py:99-107 | a selected record whose url resolves to no base fails at once and is not counted |
| UrlDeletionStatus.RunStatus | clearml-server/apiserver/jobs/async_urls_delete.py:595-625 | the same over any run, by the storage of the record's own type and company |
| UrlDeletionStatus.RunFailedIff | clearml-server/apiserver/jobs/async_urls_delete.py:595-625 | over any run a record with a path, and with retries left at the start, has failed exactly when it has none left |
| UrlDeletionStatus.OnlyTheDue | clearml-server/apiserver/jobs/async_urls_delete.py:611-622 | a turn takes up only records that have not failed, have retries left, and whose last failure is longer ago than the timeout |
| UrlDeletionStatus.TakesTheFirst | clearml-server/apiserver/jobs/async_urls_delete.py:93-622 | a turn takes, of the company and storage type of a record counted least of all that can be taken, all of them or the first 10000 by url, in that order |
| UrlDeletionStatus.IdleIff | clearml-server/apiserver/jobs/async_urls_delete.py:595-608 | a turn is idle exactly when no record of a storage type with a helper is so |
| UrlDeletionStatus.WaitsItsTimeout | clearml-server/apiserver/jobs/async_urls_delete.py:595-611 | between two turns of a run that take up one record the timeout passes, measured from a clock reading after the first began |
| UrlDeletionCounts.CountsWithin | clearml-server/apiserver/jobs/async_urls_delete.py:119-174 | with clients that name a path under no more reasons than a given number for each request and path, one call counts a record at most as often as the requests of its group allow, or once |
| UrlDeletionCounts.CountsIff | clearml-server/apiserver/jobs/async_urls_delete.py:119-174 | over all such clients of a storage, a record is removed or counted at most n times exactly when that bound is at most n; it is known before the call from the chunks and paths of the group |
| UrlDeletionCounts.MaxRetriesBoundsIff | clearml-server/apiserver/jobs/async_urls_delete.py:37-45 | the maximum bounds the count of a record with retries left, whatever such clients do, exactly when count and bound together stay within it |
| UrlDeletionCounts.TidyCountsIff | clearml-server/apiserver/jobs/async_urls_delete.py:119-174 | for clients that give one reason for a path the bound is the number of chunks with a path |
| BatchDelete.FileServer.BatchDelete | clearml-server/fileserver/fileserver.py:152-201 | the request loop over the file tree and the two dictionaries equals the function the laws are about |
| BatchDelete.AnswerIsTrue | clearml-server/fileserver/fileserver.py:156-201 | on a normal return the files in `deleted` or `errors` are exactly the requested ones, a file in `deleted` is gone with all below it, and only requested subtrees changed |
| BatchDelete.DeleteFilesExact | clearml-server/fileserver/fileserver.py:164-195 | with a file system that does not fail, exactly what a requested file or folder covers is gone, also with nested or repeated paths |
| BatchDelete.OrderDoesNotMatter | clearml-server/fileserver/fileserver.py:164-195 | two requests with the same files, in any order and multiplicity, leave the same tree |
| BatchDelete.EmptyPath | clearml-server/fileserver/fileserver.py:166 | a path is refused as empty exactly when it has no character other than slashes |
| BatchDelete.SlashesChangeNothing | clearml-server/fileserver/fileserver.py:164-169 | leaving out of a request all files whose decoded paths have no other character changes neither the disk afterwards nor whether there is an answer, wherever such a path is located |
| BatchDelete.SlashesAreRefused | clearml-server/fileserver/fileserver.py:166-169 | such a file is listed under its own error, under no other one, and never as deleted |
| BatchDelete.EmptyPathKeepsAll | clearml-server/fileserver/fileserver.py:166-169 | the empty path, though it is authorized and located at the upload folder itself, leaves the disk as it was |
| BatchDelete.AnswerAccounts | clearml-server/fileserver/fileserver.py:164-195 | each file is listed for what it came to: refused for slashes alone, not found, what the file system said, or deleted |
| BatchDelete.HandleAnswersIff | clearml-server/fileserver/fileserver.py:152-201 | a request is answered exactly when it has files and each with a character other than slashes is authorized; then each deleted file and each reason is a key once |
| FileserverJob.RestIsFirstMatch | clearml-server/apiserver/jobs/async_urls_delete.py:246-252 | a url resolves exactly when a prefix applies, the first such prefix is cut off, and prefix and rest give the path back |
| FileserverJob.AppliesIff | clearml-server/apiserver/jobs/async_urls_delete.py:246-252 | a prefix applies exactly when it has no host or the url's, and no path or one that the url's path goes on from with a slash |
| FileserverJob.FileOfUrl | clearml-server/apiserver/jobs/async_urls_delete.py:189-252 | the file of a url under a prefix is where the server locates what is behind the prefix, decoded, unless that is slashes alone |
| FileserverJob.NoFileOfUrl | clearml-server/apiserver/jobs/async_urls_delete.py:232-252 | an empty url, one that cannot be parsed, and one that no prefix applies to resolve to no base |
| FileserverJob.SlashesHaveNoFile | clearml-server/apiserver/jobs/async_urls_delete.py:189-194 | a url with nothing but slashes behind its prefix stands for no file and is asked for by no path |
| FileserverJob.ClientPathIs | clearml-server/apiserver/jobs/async_urls_delete.py:189-194 | the path asked for is the url without the slashes at its ends, and a url of slashes alone raises |
| FileserverJob.ReplyIsComplete | clearml-server/apiserver/jobs/async_urls_delete.py:196-204 | a reply reports each path asked for as deleted or under some reason, so none is ever missing; a lost request changes no file |
| FileserverJob.PostShrinks | clearml-server/apiserver/jobs/async_urls_delete.py:196-204 | one request, delivered or not, changes only requested subtrees, and what the client is told deleted is absent |
| FileserverJob.RemovedIsAbsent | clearml-server/apiserver/jobs/async_urls_delete.py:161-167 | a record that left the collection was in the batch and its file is absent at the end of the call |
| FileserverJob.OnlySelectedFilesGo | clearml-server/fileserver/fileserver.py:156-201 | every file that went is at or below the file of a selected record |
| FileserverJob.EndToEnd | clearml-server/apiserver/jobs/async_urls_delete.py:92-174 | both together, for the composed system under lost requests, lost replies and file system errors |
| FileserverJob.FileserverRaisesOnce | clearml-server/apiserver/jobs/async_urls_delete.py:185-187 | the fileserver's chunks hold a whole batch, so one call counts at most one exception against a record |
| FileserverCounts.PostMeasured | clearml-server/fileserver/fileserver.py:161-195 | a reply names a path under at most as many reasons as it was asked for, and under one if it decodes to nothing |
| FileserverCounts.DistinctIsTidy | clearml-server/fileserver/fileserver.py:161-195 | a request for distinct paths is answered with one reason for each at most |
| FileserverCounts.FileserverCountsIff | clearml-server/apiserver/jobs/async_urls_delete.py:119-174 | over all servers and networks, one call counts a record at most n times exactly when it asks for no path, or for one that decodes to nothing, or at most n records of the batch ask for its path |
| FileserverCounts.FileserverBoundsIff | clearml-server/apiserver/jobs/async_urls_delete.py:37-45 | so the maximum bounds the count exactly when no more records of the batch ask for the path than the record has retries left |
| FileserverCounts.TwinsOvershoot | clearml-server/apiserver/jobs/async_urls_delete.py:189-194 | the records of `/x` and `/x/`, each with one retry left, are pushed past the maximum by one reply |
| FileserverRuns.RemovedStaysGone | clearml-server/apiserver/jobs/async_urls_delete.py:595-625 | over a whole run serving all storage types, the file of every fileserver record that was removed is absent at the end |
| FileserverRuns.GoneWasChosen | clearml-server/apiserver/jobs/async_urls_delete.py:595-625 | every file that went during a run is at or below the file of a record that some turn of the run selected |
| FileserverRuns.RunDeletesFiles | clearml-server/apiserver/jobs/async_urls_delete.py:595-625 | once a run falls idle with all timeouts over, every fileserver record has failed for good, or was removed on report and its file is gone |
| DocSearch.PathCache.TranslateFieldsPath | clearml-server/apiserver/database/props.py:109-144 | the loop equals the recursive translation, errors included |
| DocSearch.TranslatesIff | clearml-server/apiserver/database/props.py:109-144 | a path translates exactly when its parts name a field, a field of the document that holds, and so on; the error tells a field without a document, with more parts behind it, from an unknown one |
| DocSearch.PathCache.Get | clearml-server/apiserver/database/props.py:169-178 | one dictionary may serve a class and its subclasses: it answers right for every path the classes sharing it translate alike, whichever of them asked first |
| DocSearch.TranslationDropsBack | clearml-server/apiserver/database/props.py:109-144 | dropping the stars from a translated path gives the path back |
| DocSearch.ListsTakeStars | clearml-server/apiserver/database/props.py:109-144 | a field that holds a list of documents takes a star behind it, any other one does not |
| DocSearch.SearchIsWalk | clearml-server/apiserver/database/projection.py:199-237 | on a document of its class the glob search finds exactly the values the walk over the classes finds, in order, and a factory replaces exactly those |
| ProjectionJoin.ReferenceFieldsAreValid | clearml-server/apiserver/database/props.py:109-144 | distinct reference fields of a class translate to paths that never lead into one another |
| ProjectionJoin.OtherPathKept | clearml-server/apiserver/database/projection.py:218-235 | replacing along one path leaves the leaves of unrelated paths as they were |
| ProjectionJoin.JoinedLeaves | clearml-server/apiserver/database/projection.py:260-266 | after a join each reference leaf is the filled old leaf, in the same place |
| ProjectionJoin.PathKept | clearml-server/apiserver/database/projection.py:239-297 | the leaves of every path unrelated to the joined fields are unchanged by a join |
| ProjectionJoin.JoinsAgreeIff | clearml-server/apiserver/database/projection.py:239-297 | two ways of filling leaves give the same document exactly when they agree on every reference leaf |
| ProjectionJoin.ShowJoin | clearml-server/apiserver/database/projection.py:21-37 | reading a proxied document is reading the document with each leaf filled from the proxy table |
| ProjectionJoin.ProxyManager.Add | clearml-server/apiserver/database/projection.py:27-32 | an existing proxy is kept, a new one holds just its id |
| ProjectionJoin.ProxyManager.Update | clearml-server/apiserver/database/projection.py:34-37 | a result is merged into the proxy of its id, if there is one |
| ProjectionHelper.StreamAnswers | clearml-server/apiserver/database/projection.py:285-288 | fetching in chunks of any size answers the whole list of ids |
| ProjectionHelper.MergeKeeps | clearml-server/apiserver/database/projection.py:285-297 | whichever field's document is merged next, no proxy is spoiled and no pending document is lost |
| ProjectionHelper.ProjectionHelper.SearchAndReplace | clearml-server/apiserver/database/projection.py:218-235 | one pass returns the leaves, replaces each by its proxy and registers exactly their keys |
| ProjectionHelper.ProjectionHelper.CollectIds | clearml-server/apiserver/database/projection.py:254-266 | the ids listed are exactly the non-empty ids at the field in some result, each result has its leaves proxied |
| ProjectionHelper.ProjectionHelper.CollectAll | clearml-server/apiserver/database/projection.py:268-274 | collecting field after field loses no id although earlier leaves are already proxies |
| ProjectionHelper.ProjectionHelper.MergeAll | clearml-server/apiserver/database/projection.py:278-297 | under every interleaving of the fields' updates all proxies end up filled, when shared ids are consistent |
| ProjectionHelper.ProjectionHelper.Project | clearml-server/apiserver/database/projection.py:239-297 | the batched join shows what looking every reference up one by one shows, exactly when fields sharing an id find the same document for it; then each leaf shows its id with each requested sub-field its document has, or the whole document when none is requested |
| ProjectionHelper.FilledIsShown | clearml-server/apiserver/database/projection.py:281-289 | a look-up that answers with just the fields asked for fills a leaf with the id and each requested sub-field of the document, with all of it when none is requested, with the id alone when there is none, and with nothing for a leaf without an id |
| ProjectionHelper.DisjointIsConsistent | clearml-server/apiserver/database/projection.py:21-37 | that condition holds whenever the id sets of the fields are disjoint |
| ProjectionHelper.SharedIdInconsistent | clearml-server/apiserver/database/projection.py:34-37 | a user and a project with one id: a concrete result for which the condition fails |
| ProjectionHelper.SharedIdMixes | clearml-server/apiserver/database/projection.py:34-37 | what the reader then sees at both fields, for both orders of merging: one mix of the two documents, which neither look-up gives |
| ProjectionFields.ReductionKeepsMeaning | clearml-server/apiserver/database/projection.py:154-166 | of fields to include, the reduced ones return the same paths, none lies inside another, and reducing again changes nothing |
| ProjectionFields.ReductionIsUnique | clearml-server/apiserver/database/projection.py:154-166 | no other choice of the fields does that |
| ProjectionFields.ExtendsIff | clearml-server/apiserver/database/projection.py:162 | one name lies inside another exactly when, taken apart at the dots, it has all its parts and more behind them |
| ProjectionFields.AddReferences | clearml-server/apiserver/database/projection.py:180-187 | the final loop adds the missing reference fields one by one in some order |
| ProjectionFields.UnsafeCanBeLost | clearml-server/apiserver/database/projection.py:183-185 | an unsafe reference field is left out by some order |
| ProjectionFields.JoinCoversIff | clearml-server/apiserver/database/projection.py:180-187 | every joined reference field is returned, whatever the order, exactly when each is covered anyway or no other name is a textual prefix of it |
| ProjectionFields.PrefixHides | clearml-server/apiserver/database/projection.py:183-185 | a name that only begins the name of a reference field hides it |
| ProjectionFields.QueueIsHidden | clearml-server/apiserver/database/projection.py:168-185 | the reference field `execution.queue` of a task is lost beside the unknown sub-field `execution.que`, whose first part is all that the check for invalid fields looks at |
| ConfigMerge.MergeLaw | clearml-server/apiserver/config/basic.py:150-182 | what one merge binds at any path, from the two trees alone |
| ConfigMerge.FoldLaw | clearml-server/apiserver/config/basic.py:144-148 | the fold binds a value at a path exactly when some source does and no later source binds the path or cuts above it |
| ConfigMerge.MergeIdentity | clearml-server/apiserver/config/basic.py:144-148 | the empty tree is neutral on both sides |
| ConfigMerge.MergeIdempotent | clearml-server/apiserver/config/basic.py:150-182 | merging a tree into itself changes nothing |
| ConfigMerge.AssociativeAt | clearml-server/apiserver/config/basic.py:150-182 | at each path, the two ways of nesting three merges agree exactly when the middle source does not cut it from the first one unseen |
| ConfigMerge.MergeAssociative | clearml-server/apiserver/config/basic.py:150-182 | the merge of three sources is associative exactly when that happens at no path |
| ConfigMerge.CompatibleIsAssociative | clearml-server/apiserver/config/basic.py:150-182 | in particular when no path is a section in one source and a plain value in the other |
| ConfigMerge.NotAssociative | clearml-server/apiserver/config/basic.py:150-182 | three concrete sources for which it is not |
| ConfigOverrides.LevelLaw | clearml-server/apiserver/config/basic.py:153-173 | what the loop leaves under any key, from what the second section says about it: nothing, a value, an override, or an override and then a value |
| ConfigOverrides.LayeredLaw | clearml-server/apiserver/config/basic.py:150-182 | what one merge binds at any path, for any two trees with override keys at any depth, read off the two trees by walking down the path |
| ConfigOverrides.OverrideReplacesBelow | clearml-server/apiserver/config/basic.py:153-173 | an override in a section that is already there, however deep, replaces its key wholesale |
| ConfigOverrides.OverrideReplaces | clearml-server/apiserver/config/basic.py:153-173 | at the top, a key with the override prefix replaces the whole entry, unless a later key of the same section addresses it again |
| ConfigOverrides.FoldLayeredLaw | clearml-server/apiserver/config/basic.py:144-148 | what the fold of any list of sources with override keys binds at any path, read off the sources by walking down the path with the layers that still count |
| ConfigOverrides.OverrideForgets | clearml-server/apiserver/config/basic.py:144-173 | below a key that a source overrides, the fold is the fold from that source on, whatever came before |
| ConfigHeap.MergeConfigs | clearml-server/apiserver/config/basic.py:150-182 | the in-place merge writes only its first argument and new nodes, which then mean the merged tree |
| ConfigHeap.MergeItem | clearml-server/apiserver/config/basic.py:153-173 | one entry: merged below, replaced, or overridden, without writing into a shared subtree |
| ConfigHeap.MergeSub | clearml-server/apiserver/config/basic.py:164-166 | a subtree is copied before it is changed, so the source it came from is not |
| ConfigHeap.Reload | clearml-server/apiserver/config/basic.py:131-148 | folding any list of sources modifies no existing node, so every source keeps its meaning, and the result means the fold of what the sources mean |
| Uris.QuoteChanges | scripts/migrate-rustfs-artifacts.py:137 | quoting keeps a string exactly when all its characters are unreserved or slashes |
| Uris.QuoteRoundTrip | scripts/migrate-rustfs-artifacts.py:137 | quoting can be undone: reading `%` with two hexadecimal digits as a byte, and any other character as its code, gives back the UTF-8 bytes of the key |
| Uris.KeptIff | scripts/migrate-rustfs-artifacts.py:137 | the characters left alone, by their codes |
| Uris.SplitUri | scripts/migrate-rustfs-artifacts.py:35 | a URI of scheme, network location and path is taken apart into these |
| Uris.SplitWithoutScheme | scripts/migrate-rustfs-artifacts.py:35 | without a scheme before its first colon a URI has none |
| Uris.SchemeNameIff | scripts/migrate-rustfs-artifacts.py:35 | what a scheme is, by the codes of its characters |
| Uris.MigratedUriSplits | clearml-server/apiserver/jobs/async_urls_delete.py:419-440 | every migrated URI is recognised as one of the RustFS bucket |
| Uris.DeletionOfMigrated | clearml-server/apiserver/jobs/async_urls_delete.py:385-391 | for every migration key the base is the bucket and the path the encoded key, which is the uploaded key exactly when nothing had to be encoded |
| Uris.BaseOfUri | clearml-server/apiserver/jobs/async_urls_delete.py:419-440 | an `s3` URI of the RustFS host and below its bucket has the RustFS base, another `s3` URI what the configured buckets say, and a URI of any other scheme none |
| Uris.PathBehindBase | clearml-server/apiserver/jobs/async_urls_delete.py:385-391 | the path is what is behind the base, or all of a url that does not begin with it, without the slashes before it |
| Uris.SpaceIsNotDeleted | clearml-server/apiserver/jobs/async_urls_delete.py:385-391 | a file name with a space is asked for under a key that was never uploaded |
| RustfsJob.MigratedBatch | clearml-server/apiserver/jobs/async_urls_delete.py:400-411 | one call on records of migrated URIs removes all of them, and from the bucket exactly their percent-encoded keys |
| RustfsJob.ObjectRemainsIff | clearml-server/apiserver/jobs/async_urls_delete.py:385-411 | in any batch, a record leaves the collection while its object stays in the bucket exactly when no record of the batch has the object's key as its encoded key |
| RustfsJob.LoneObjectRemainsIff | clearml-server/apiserver/jobs/async_urls_delete.py:385-411 | for a batch of one record, exactly when quoting changes its key |
| RustfsJob.OnlyTheirObjectsGoIff | clearml-server/apiserver/jobs/async_urls_delete.py:400-411 | only objects of records of the batch go exactly when every encoded key that is in the bucket is the key of one of them |
| RustfsJob.OtherObjectGoes | clearml-server/apiserver/jobs/async_urls_delete.py:385-411 | when quoting changes a key, a call on its record deletes the object of the record that has the encoded key, and not its own |
| RustfsJob.SpaceDeletesOther | clearml-server/apiserver/jobs/async_urls_delete.py:385-411 | concretely, the record of `migrated/a b` takes the object `migrated/a%20b` of a record that was not selected |
| Migration.Migrator.ListEntries | scripts/migrate-rustfs-artifacts.py:90-105 | the listing loops build the entry list, or stop at the first path that escapes |
| Migration.Migrator.CheckFiles | scripts/migrate-rustfs-artifacts.py:106-108 | the check passes exactly when every source file is there |
| Migration.Migrator.WriteManifest | scripts/migrate-rustfs-artifacts.py:114-127 | creating and filling the manifest are two writes; cut short in between it has no line that can be read |
| Migration.Migrator.RunScript | scripts/migrate-rustfs-artifacts.py:76-152 | the script, killed after any number of writes, equals the run function: entry list, missing files, manifest, update loop, destinations |
| Migration.Migrator.Apply | scripts/migrate-rustfs-artifacts.py:135-144 | one record: upload and verification, then the compare-and-set, with every way to stop in between |
| Migration.Migrator.UpdateLoop | scripts/migrate-rustfs-artifacts.py:135-152 | records in order up to the first failure, then the projects' destinations and then the tasks', with every way to stop in between |
| MigrationLaws.NewUriIsNoSource | scripts/migrate-rustfs-artifacts.py:34-43 | a migrated URI is never migrated again |
| MigrationLaws.HttpSource | scripts/migrate-rustfs-artifacts.py:34-40 | an `http` or `https` URI is a source exactly when its port is 7863, of the file below the root that its unquoted path names, and one outside the root is an error |
| MigrationLaws.OtherSource | scripts/migrate-rustfs-artifacts.py:41-43 | a `file` URI of this host is the file its unquoted path names, and a URI of another scheme is no source |
| MigrationLaws.EntriesExact | scripts/migrate-rustfs-artifacts.py:90-105 | the entry list has exactly one entry for each record with a source |
| MigrationLaws.EntriesFail | scripts/migrate-rustfs-artifacts.py:36-39 | listing fails exactly when some record's path escapes the fileserver root |
| MigrationLaws.CrashSafe | scripts/migrate-rustfs-artifacts.py:91-144 | after any number of runs killed anywhere, each record has its old or its new URI, a new one has an object of the file's length and `sha256` metadata under its key, and a manifest maps it back; no object is gone and none is written but under the keys of moved records |
| MigrationLaws.KilledBetweenWrites | scripts/migrate-rustfs-artifacts.py:114-152 | a run may die between any two writes: with one more write to make it gets at most one write further |
| MigrationLaws.KeyIsPlace | scripts/migrate-rustfs-artifacts.py:95-104 | the key of a moved record is its kind's folder, its ids and the last component of its file's path |
| MigrationLaws.FinishedRun | scripts/migrate-rustfs-artifacts.py:135-152 | a finished run leaves exactly the target URIs and destinations, whatever came before it |
| MigrationLaws.Convergent | scripts/migrate-rustfs-artifacts.py:91-152 | a finished run after any number of killed runs ends like one uninterrupted run |
| MigrationLaws.AlwaysResumable | scripts/migrate-rustfs-artifacts.py:91-152 | with a faithful store and stable sources, after any killed runs a run with enough time finishes |
| MigrationLaws.ManifestsMapBack | scripts/migrate-rustfs-artifacts.py:114-126 | a record has moved exactly when some manifest line maps its present URI, and each such line gives the original one |
| MigrationLaws.KeysEqualIff | scripts/migrate-rustfs-artifacts.py:95-104 | two object keys are equal exactly when kind, file name and folder are: the model id, or the task id and the artifact id joined by a slash |
| MigrationLaws.KeysDistinctIff | scripts/migrate-rustfs-artifacts.py:95-104 | no two moved records share a key, as crash safety needs, exactly when none share both folder and file name |
| MigrationLaws.FoldersMeetIff | scripts/migrate-rustfs-artifacts.py:104 | artifacts of two tasks can share a folder exactly when one task id followed by a slash starts the other |
| MigrationLaws.OwnKeysIff | scripts/migrate-rustfs-artifacts.py:95-104 | all models and all artifacts of some tasks have their own keys, whatever their ids and file names, exactly when no task id is so nested in another |
| MigrationLaws.SlashlessTasksDistinct | scripts/migrate-rustfs-artifacts.py:95-104 | task ids without a slash are enough; model and artifact ids may have them |
| MigrationLaws.SlashesCollide | scripts/migrate-rustfs-artifacts.py:104 | artifact `b/c` of task `a` and artifact `c` of task `a/b` have one key |
| MigrationBytes.UploadSkipsIff | scripts/migrate-rustfs-artifacts.py:54-73 | an upload is skipped exactly when the object under the key has the file's length and its digest as metadata; any other upload writes, and raises unless length, metadata and bytes are right |
| MigrationBytes.MovedHasMetadata | scripts/migrate-rustfs-artifacts.py:54-144 | after any killed runs the object of each moved record has the length of its file and its digest as metadata |
| MigrationBytes.UploadVerifiedIff | scripts/migrate-rustfs-artifacts.py:54-73 | after an upload that does not raise, the object passes the byte check exactly when none with the right length and metadata but other bytes was found |
| MigrationBytes.RunVerifiedIff | scripts/migrate-rustfs-artifacts.py:54-144 | a record that a run moves, killed or not, points to its bytes exactly when before the run no such object was under its key |
| MigrationBytes.MovedVerifiedIff | scripts/migrate-rustfs-artifacts.py:54-144 | after any killed runs, a moved record was moved by one of them and points to its bytes exactly when that run did not find such an object |
| MigrationBytes.MovedIsVerified | scripts/migrate-rustfs-artifacts.py:54-144 | if the store makes no such object and none is there at the start, every moved record points to its bytes after any killed runs |
| MigrationBytes.SecondRunIsMistaken | scripts/migrate-rustfs-artifacts.py:54-73 | when the store makes one, the first run raises and the second finishes with the record pointing to the wrong bytes |
| MigrationBytes.SpoiledModel | scripts/migrate-rustfs-artifacts.py:54-73 | a concrete model and store for which that happens |
| DistributedLock.MutualExclusion | clearml-server/apiserver/sync.py:12-31 | in every interleaving whose critical sections end before their time to live, at most one process is inside and a release deletes only its own key |
| DistributedLock.OverrunBreaks | clearml-server/apiserver/sync.py:28-31 | from any state with an overrun section, a second process can enter and the first then deletes that one's key |
| DistributedLock.OverrunHappens | clearml-server/apiserver/sync.py:12-31 | for every time to live there is such a state: a concrete history in which two processes are inside |
| DistributedLock.Waiter.Acquire | clearml-server/apiserver/sync.py:19-27 | the polling loop ends at the first look at which the key is free or the wait is over, acquiring unless the wait was over |
| DistributedLock.WakeRaisesIff | clearml-server/apiserver/sync.py:21-27 | a waiter that wakes up raises exactly when it has waited longer than it was told to, or than twice the timeout, and otherwise tries again |
| DistributedLock.DefaultWaitSuffices | clearml-server/apiserver/sync.py:21-27 | with the default wait and pauses at most one clock tick longer than the time to live, a lone waiter facing a dead holder acquires the lock |
| DistributedLock.LongPauseRaises | clearml-server/apiserver/sync.py:24-27 | a schedule whose last pause is one tick longer than that, for every time to live, that raises although the key has expired |
| DistributedLock.WaitIff | clearml-server/apiserver/sync.py:19-27 | for any waiting time of at least a timeout, every schedule with pauses at most b acquires exactly when b is at most what is left of it after the timeout, and one tick |
| DistributedLock.DefaultWaitIff | clearml-server/apiserver/sync.py:21-27 | every schedule with pauses at most b acquires against every dead holder's key exactly when b is at most the time to live and one tick |
| SchemaCache.Reader.GetSchema | clearml-server/apiserver/schema/schema_reader.py:219-268 | the method equals the function on the folder: the cache answers when it is readable, names the files and none is newer, and otherwise each file is parsed and the cache written |
| SchemaCache.SecondCallReads | clearml-server/apiserver/schema/schema_reader.py:236-241 | a call right after one that wrote the cache, over files not newer, reads it and writes nothing |
| SchemaCache.AlwaysFresh | clearml-server/apiserver/schema/schema_reader.py:224-268 | over any history of edits, removals and calls, with failing or torn cache writes, the services returned equal a fresh parse, if only each edit was later than the cache it found |
| SchemaCache.OrderlyIsAttentive | clearml-server/apiserver/schema/schema_reader.py:236 | which holds when the clock moves on with every action |
| SchemaCache.EditSeenIff | clearml-server/apiserver/schema/schema_reader.py:236-241 | an edit with any time is seen by the next call exactly when it does not leave the folder looking no newer than its cache, or parses to what was cached |
| SchemaCache.EditAfterCallSeenIff | clearml-server/apiserver/schema/schema_reader.py:236-266 | after a call that wrote the cache at t, an edit of a known file is seen exactly when its time is later than t or it parses the same |
| SchemaCache.FreshIff | clearml-server/apiserver/schema/schema_reader.py:224-268 | over all histories with edits at any times, a call is wrong exactly when it answers from the cache and some file parses differently from when the cache was written |
| SchemaCache.OldTimeIsStale | clearml-server/apiserver/schema/schema_reader.py:236 | an edit in the tick of the cache write, or one that keeps an older time, is not seen |
| EndpointNaming.ComposeInjective | clearml/clearml/task.py:967-972 | composed keys of different endpoints or different properties differ |
| EndpointNaming.RequestIsWritten | clearml/clearml/task.py:1067-1092 | the protocols are `http` and `tcp`, and each property of a request for one is named and set as here written out |
| EndpointNaming.SuffixIff | clearml/clearml/task.py:974-983 | a property belongs to an endpoint of the registry exactly when it is the protocol's port property, bare or followed by two underscores and the suffix |
| EndpointNaming.SuffixOfComposed | clearml/clearml/task.py:974-983 | collecting reads back exactly the suffix of a port key and ignores every other property key |
| EndpointNaming.RegistryIsUnique | clearml/clearml/task.py:974-983 | what is collected does not depend on the order of the properties |
| EndpointNaming.RegistryAfter | clearml/clearml/task.py:1067-1095 | after a request its protocol's registry is the old one plus suffix and port, the other protocol's is unchanged |
| EndpointNaming.RequestReadsBack | clearml/clearml/task.py:1072-1092 | no property of a request overwrites another of it: each reads back as meant |
| EndpointNaming.PropertyAfter | clearml/clearml/task.py:1067-1095 | every property of every endpoint after a request: set to what is meant, or left alone |
| EndpointNaming.OtherProtocolAfter | clearml/clearml/task.py:1067-1095 | of the other protocol's endpoint with the same suffix the address and ports survive, the shared service property is overwritten, and the route properties survive without a route |
| EndpointNaming.RequestIsExact | clearml/clearml/task.py:1067-1095 | no property of the task changes but those the request means to set |
| EndpointNaming.Pigeonhole | clearml/clearml/task.py:1033-1037 | as long as every number tried is taken, fewer were tried than there are endpoints |
| EndpointNaming.UnnamedInOrder | clearml/clearml/task.py:1030-1037 | unnamed requests alone take no suffix, then 1, 2, 3 and so on |
| EndpointNaming.Task.CollectEndpointSuffixes | clearml/clearml/task.py:974-983 | the loop over the properties returns a registry of them |
| EndpointNaming.Task.ChooseSuffix | clearml/clearml/task.py:1030-1037 | a given name is taken as it is; otherwise the search ends at the least free number, at most the number of endpoints, and is fresh |
| EndpointNaming.Task.RequestExternalEndpoint | clearml/clearml/task.py:1020-1095 | all of it for one call: unknown protocol rejected without change, fresh suffix, registries as stated, the properties read back as meant and every other property of the task is unchanged |
| Shutdown.Task.Close | clearml/clearml/task.py:2833-2844 | the guard of `close` is the state machine's step |
| Shutdown.Task.AtExit | clearml/clearml/task.py:4994-5008 | the guard of `_at_exit` is the state machine's step |
| Shutdown.Task.EnterShutdown | clearml/clearml/task.py:5022-5040 | the entry of `__shutdown` is the state machine's step: an unset flag lets any thread of any process in and takes its id; the owner comes in once more in a main process, and in a forked one with a logger only sets the flag for good; everyone else is turned away with the flag as it was |
| Shutdown.Task.LeaveShutdown | clearml/clearml/task.py:5218 | the end of the body sets the flag for good |
| Shutdown.StepInv | clearml/clearml/task.py:5015-5222 | every step keeps the bound on entries, and only one thread is ever inside the body |
| Shutdown.AtMostTwice | clearml/clearml/task.py:5022-5040 | over every run of threads with ids above 1 the body is entered at most twice in a main process, at most once in a forked one, always by one thread |
| Shutdown.CalledEnters | clearml/clearml/task.py:5022-5040 | in every run, of any threads and in forked processes too, once a call in progress has reached the entry the body has been entered |
| Shutdown.FirstCallShutsDown | clearml/clearml/task.py:5022-5218 | the first call of `close` or `_at_exit` goes into the body, and its end sets the flag for good |
| Shutdown.OthersAreTurnedAway | clearml/clearml/task.py:4994-4998 | while a thread shuts down no other one gets as far as the entry, and that thread only by `_at_exit` |
| Shutdown.TrueIsFinal | clearml/clearml/task.py:5218 | once the flag is `True` it stays, and nothing enters the body any more |
| Shutdown.ThreadOneReenters | clearml/clearml/task.py:5025-5029 | a thread with id 1 enters once for every call |
| Shutdown.LimitHoldsIff | clearml/clearml/task.py:5022-5040 | the limit of two holds over all runs of some threads exactly when none has id 1 |
| EndpointTable.MajorFirst | clearml-server/apiserver/service_repo/service_repo.py:134-148 | versions compare by their major numbers first and then by their minor ones, as numbers |
| EndpointTable.RegisteredExactly | clearml-server/apiserver/service_repo/service_repo.py:134-148 | a sequence of registrations succeeds exactly when no two share name and version, and then each list holds exactly its endpoints, strictly newest first |
| EndpointTable.OrderDoesNotMatter | clearml-server/apiserver/service_repo/service_repo.py:134-148 | any reordering of the registrations gives the same table or fails as well |
| EndpointTable.FirstIsNewest | clearml-server/apiserver/service_repo/service_repo.py:169-177 | the first match is the greatest version not above the request, and no match means there is none |
| EndpointTable.LookupMonotone | clearml-server/apiserver/service_repo/service_repo.py:169-177 | a newer request never reaches an older endpoint |
| EndpointTable.ReachesNewestIff | clearml-server/apiserver/service_repo/service_repo.py:206-210 | a request reaches the newest endpoint of a name exactly when it is not older than it |
| EndpointTable.ServiceRepo.RegisterEndpoint | clearml-server/apiserver/service_repo/service_repo.py:134-148 | a clash raises and changes nothing, otherwise the endpoint is filed and the list sorted |
| EndpointTable.ServiceRepo.GetEndpoint | clearml-server/apiserver/service_repo/service_repo.py:169-177 | the greatest version not above the request, or nothing |
| EndpointTable.ServiceRepo.UpdateMaxVersion | clearml-server/apiserver/service_repo/service_repo.py:118-124 | the maximum version bounds all endpoints and is the old one or one of theirs; no endpoints at all is an error |
| EndpointTable.ServiceRepo.GetUnversioned | clearml-server/apiserver/service_repo/service_repo.py:206-210 | after loading, a path without version reaches the newest endpoint of every name |
| EndpointTable.EndpointVersionsGroup.InitEndpoints | clearml-server/apiserver/schema/schema_reader.py:110-137 | the schemas of all version keys, oldest first; a key that is no version raises and sets nothing |
| EndpointTable.EndpointVersionsGroup.GetForVersion | clearml-server/apiserver/schema/schema_reader.py:142-153 | the least version not below the argument, or an error exactly when there is none |
| Dataset.Check | examples/vehicle_detection_yolo12/dataset.py:102-126 | the chain of tests accepts exactly the lines with five finite fields, an integral class in range and a box inside the unit square, and reports the first problem in the order of the tests |
| Dataset.ValidateLines | examples/vehicle_detection_yolo12/dataset.py:99-126 | the errors are exactly the bad lines with their number and first problem; counters and objects agree with the valid lines |
| Dataset.ValidateSplit | examples/vehicle_detection_yolo12/dataset.py:83-137 | the errors are exactly what there is to complain about, and there is nothing exactly when there are images, the label files are the expected ones and all their lines are good |
| Dataset.StemsBounded | examples/vehicle_detection_yolo12/dataset.py:91-94 | there are at most as many expected label files as images |
| Dataset.CleanObjects | examples/vehicle_detection_yolo12/dataset.py:91-126 | in a clean split the objects counted are the non-blank label lines summed over the images |
| Dataset.ByClassSum | examples/vehicle_detection_yolo12/dataset.py:136 | the counts by class name sum to all objects exactly when no class whose name comes again has any |
| Dataset.RepeatedNameLosesObjects | examples/vehicle_detection_yolo12/dataset.py:136 | two classes of one name and one object: the counts by name show none |
| Dataset.PrepareDataset | examples/vehicle_detection_yolo12/dataset.py:52-143 | accepted exactly when train and val are there and every split given is clean, and then the report is true of each split; otherwise the errors are exactly those of the entries |

## Left out

Of the deletion job and the fileserver:

- Azure and Google storages, the AWS bucket configuration lookup beyond RustFS, tokens, logging and sleeping.
- A storage whose construction raises, which would end the loop.
- `_resolve_base_url` overwrites the url of the document in memory; the model carries the rewritten url in the item that is grouped.
- Collations: urls are ordered character by character, as they are by default.
- Other writers adding records between turns; the bound on work is stated without them.
- The endless loop is modelled by its first `n` turns, for every `n`.
- Fields of a record the job does not read: user, task, type, creation time.
- Parsing of urls by furl, percent decoding and `safe_join` on the fileserver are parameters; symbolic links are not modelled.

Of projections:

- Result documents are values, so walking down a dictionary is recursion that rebuilds it; sharing of one dictionary between two result documents is not modelled.
- Fields to exclude, which carry the prefix `-`: the laws of the projection fields are about the fields to include.
- `_collect_projection_fields`, the expansion of `*`, the check for invalid fields, the added `id` field, and the expansion of fields that are not joined.
- Lists of references at one leaf, which the search cannot replace, and leaves that are neither strings nor null.
- `projection_func` is any function that answers a list of ids, in any order, with exactly what it knows of each; the query behind it and its paging are not modelled.

Of configuration:

- File parsing by pyhocon with its dotted keys, substitutions and the history of a key.
- Nothing strips override keys inside a subtree that is inserted whole: they stay as they are, in the code and in the model.
- Reading the environment values, which merges without copying.

Of migration:

- SHA-256 is any function; url splitting leaves out IPv6 literals, and the port of a host is a parameter that cannot raise.
- Artifact ids with dots in a Mongo field path, file names that coincide in time for two manifests, records changed by others during a run.
- A dry run, which writes nothing; a crash of the database inside one update of many documents.

Of the lock, the cache and the endpoint table:

- The process id stored in the key, which nobody compares; the exception text that names the holder.
- `_api_defaults.conf`, which the cache is not compared with; two calls at once, which the lock excludes; the cache file's JSON, which is taken to read back as it was written.
- Parsing of versions and their comparison when parts are missing: versions are pairs ordered lexicographically.
- The regular expressions of request paths and of version keys, and the maximum version check of a request.

Of the SDK and the dataset validator:

- The mapping of external host ports, route validation, waiting for an endpoint, system tags.
- What the shutdown body does, and that a fork copies the flag; the entry test-and-set is one step.
- `_class_names`, path resolution of a split, the text of errors beyond the first 25, rounding of floats.
- Paging of model and task queries, patching, reporting, uploads, the web applications, authorization: plumbing around the above.
