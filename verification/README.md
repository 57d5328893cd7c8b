# Verified models of the storage access service

A Dafny model of the parts of the storage access service that decide what its clients see: which file
a path means, which drive an id means, whether a request or a job is handled, what a codec gives back.
Each module follows one component.

- `Serializer`: the typed writer and reader over trees of JSON arrays, with their cursors.
- `Paths`, `DriveIndex`: the Google Drive path index, its lookups and listings by string search, and the
  level-by-level walk.
- `WorkQueue`, `ThreadPool`: the bounded queue and the pool of polling workers, as state machines whose
  steps are the critical sections, with a class that refines them method by method.
- `Dispatcher`: the many-producers, one-consumer request queue of every provider, likewise.
- `SambaMounts`: the mount table, its mirror and its id counter over runs of mount and eject.
- `Utf8`, `VarString`, `FormEncoding`: UTF-8, the growable buffer with split and join, percent and form
  encoding.
- `UsbDrives`: drive ids as printed, and the lookups that resolve them.
- `Upnp`: the path-splitting loop and the container walk.
- `Paging`: the page windows of two providers.
- `Strings`, `Wrappers`: searching, decimal printing, optional values and results.

Where the code falls short of a clean statement, the model keeps the code's behaviour and states the
exact condition under which the statement holds:

- index and walk agree on an indexed path (other than "/"), and on any other exactly when the index
  binds nothing to its last name below the part of it that the index can follow; the walk passes over
  names it cannot find; where siblings share a title, exactly when the first and the last are the same;
- listing a folder is exact exactly when its path occurs only in keys at or below it;
- the queue respects its capacity with one producer and no spurious wakeup, and exceeds every bound with
  two producers or one spurious wakeup; for every capacity of at least 2 a signal to a single producer can
  be lost for good exactly when `pop` and `try_pop` are mixed, and one producer and one `pop` consumer can
  deadlock exactly at capacity 1; of several producers one can be stranded beside an empty queue exactly
  at capacities 1 and from 3 on with `try_pop` only, and from 2 on with `pop` only;
- after a postponed shutdown a job is lost exactly when its `add` is waiting as the last worker leaves, or
  comes later;
- a Samba path check reaches into another live mount exactly when the mount paths overlap as prefixes;
- `decode` undoes `encode` exactly off the surrogates, which `encode` writes and `decode` rejects;
- a form reads back exactly when its keys are free of '&', '=' and NUL and its values of NUL;
- a printed USB drive id leads back to its entry exactly under the conditions of `UsbDrives.Findable`;
- the UPnP splitting loop agrees with the other splitter exactly on guarded paths with odd slash runs.

`dafny verify dfyconfig.toml` checks the whole project.

## Model

| member | source | states |
|---|---|---|
| Serializer.WriteThenRead | src/providers/gdrive/include/jconer/serializer.hpp:61-291 | any sequence of typed values (ints, longs, bools, strings, doubles, lists, pairs, maps, recursive user classes) written through the one cursor and read through the other at the same types comes back equal and in order |
| Serializer.DecodeEncode | src/providers/gdrive/include/jconer/serializer.hpp:61-283 | a well-typed value reads back from the tree it is written as |
| Serializer.WritingKeepsOrder | src/providers/gdrive/include/jconer/serializer.hpp:61-138 | the scalars of the tree written, left to right, are the scalars of the value, first to last |
| Serializer.DecodeEncodeEach | src/providers/gdrive/include/jconer/serializer.hpp:81-83 | values written one after another read back in order, whatever is written after them |
| Serializer.ReadingPastTheEndThrows | src/providers/gdrive/include/jconer/serializer.hpp:287-291 | one read more than was written, of whatever type, raises the failure of `_check` |
| Serializer.DecodeIsTyped | src/providers/gdrive/include/jconer/serializer.hpp:166-291 | whatever tree a read accepts, the value it yields is well typed and survives being written and read again, also when duplicate map keys were dropped on the way |
| Serializer.InsertAllIncreasing | src/providers/gdrive/include/jconer/serializer.hpp:221-241 | rebuilding a map by `insert` from its own entries changes nothing |
| Serializer.InsertAllIsSorted | src/providers/gdrive/include/jconer/serializer.hpp:230-236 | whatever pairs are inserted, the map's keys increase and every entry is one of the pairs |
| Serializer.InsertAllKeepsFirst | src/providers/gdrive/include/jconer/serializer.hpp:230-236 | reading pairs into a map keeps exactly the first entry of every key, in whatever order the pairs come |
| Serializer.WrapInt | src/providers/gdrive/include/jconer/serializer.hpp:244-248 | narrowing a stored `long` to `int` keeps every value that fits, and any other up to a multiple of 2 to the 32nd |
| Serializer.OutSerializer.Put | src/providers/gdrive/include/jconer/serializer.hpp:61-138 | writing appends exactly one item at the cursor, the root of a fresh copy of the value's tree, leaves earlier items alone and brings the cursor back |
| Serializer.OutSerializer.PutEach | src/providers/gdrive/include/jconer/serializer.hpp:79-83 | a loop of writes appends the trees of all its values in order |
| Serializer.OutSerializer.GetContent | src/providers/gdrive/include/jconer/serializer.hpp:49-49 | the content is the top array |
| Serializer.InSerializer.Get | src/providers/gdrive/include/jconer/serializer.hpp:166-291 | a successful read gives the meaning of the node under the index, leaves the cursor as it was and advances the index by exactly one; past the end it throws with nothing moved |
| Serializer.InSerializer.GetEach | src/providers/gdrive/include/jconer/serializer.hpp:191-201 | consecutive reads give consecutive nodes' meanings at the types asked for, and stop at the first failure |
| Serializer.InSerializer.GetMap | src/providers/gdrive/include/jconer/serializer.hpp:221-241 | reading pairs and inserting each gives the same map as collecting all pairs first |
| DriveIndex.GDriveOperation.LoadFileIds | src/providers/gdrive/GDriveOperation.cpp:17-26 | on any acyclic folder graph the recursion ends with "/" and what it collects; with non-empty slash-free titles the map holds exactly the meaningful paths, each bound to the last file it means, the only one if sibling titles are distinct |
| DriveIndex.GDriveOperation.GetChildren | src/providers/gdrive/GDriveOperation.cpp:28-46 | the recursion lays exactly the bindings collected below the folder over the map it was given, later bindings winning |
| DriveIndex.GDriveOperation.GetFileId | src/providers/gdrive/GDriveOperation.cpp:48-54 | the id bound to a path, or the empty string |
| DriveIndex.GDriveOperation.GetFileMap | src/providers/gdrive/GDriveOperation.cpp:56-75 | exactly the entries that pass the string-search test, or the whole map for the empty path |
| DriveIndex.CollectedIsPath | src/providers/gdrive/GDriveOperation.cpp:28-46 | where titles are non-empty and slash-free every collected key is the path of some names |
| DriveIndex.CollectedExactly | src/providers/gdrive/GDriveOperation.cpp:28-46 | for any names, their path is bound to the file they lead to and to nothing if there is none, also where siblings share titles: then to the last file they lead to |
| DriveIndex.CollectedIndexes | src/providers/gdrive/GDriveOperation.cpp:17-46 | together with "/" the collected bindings are exactly the meaningful paths, each bound to the last file it means; with distinct sibling titles that file is the only one |
| DriveIndex.LastIsOnly | src/providers/gdrive/GDriveOperation.cpp:32-40 | with distinct sibling titles the last file some names lead to is the one the level-by-level resolution finds |
| DriveIndex.GetFileID | src/providers/gdrive/GDriveProvider.cpp:965-988 | the nested loops compute the level-by-level walk, in which a name without a match is passed over |
| Paths.GetFilesFromPath | src/providers/gdrive/GDriveProvider.cpp:953-963 | the loop appends "root" and the components of the path |
| Paths.ComponentsAreClean | src/providers/gdrive/GDriveProvider.cpp:953-963 | every component is non-empty and slash-free |
| Paths.ComponentsOfPath | src/providers/gdrive/GDriveProvider.cpp:953-963 | a path made of clean names is taken apart into exactly these names |
| DriveIndex.WalkFollowsResolve | src/providers/gdrive/GDriveProvider.cpp:965-988 | where every name has a match the walk arrives at the file they lead to |
| DriveIndex.FastAndSlowAgree | src/providers/gdrive/GDriveProvider.cpp:953-988 | on a freshly loaded index, looking up any indexed path but "/" and walking its components give the same file, the one the path means |
| DriveIndex.IndexAgreesWithWalk | src/providers/gdrive/GDriveOperation.cpp:48-54 | every indexed path but "/" gets the same id from index and walk |
| DriveIndex.IndexAgreesWithWalkExactly | src/providers/gdrive/GDriveProvider.cpp:965-988 | for any string at all index and walk agree if and only if it is not "/" and it is indexed, or has no component, or the index binds nothing to its last name below the path it keeps of the others, a name being kept when the index binds it below the path kept so far |
| DriveIndex.WalkByIndex | src/providers/gdrive/GDriveProvider.cpp:965-988 | what the walk finds for any clean names, present or absent, can be read off the index: it is what is bound to the last name below the path kept of the others |
| DriveIndex.AgreeInIndexedFolder | src/providers/gdrive/GDriveProvider.cpp:965-988 | below an indexed folder, the root among them, index and walk agree on every name, present or absent |
| DriveIndex.WalkFindsAbsentPath | src/providers/gdrive/GDriveProvider.cpp:973-985 | a path that means nothing can still be found by the walk |
| DriveIndex.RepeatedTitlesAgreeExactly | src/providers/gdrive/GDriveOperation.cpp:32-40 | where siblings share titles, in any folder reached by unambiguous names the index gives the last child of a title and the walk the first, so they agree on it if and only if these are the same file or there is none |
| DriveIndex.SharedTitlesAgreeExactly | src/providers/gdrive/GDriveOperation.cpp:32-40 | below folders that share titles, where the first children down the names exist, index and walk agree if and only if the last file the names lead to is the first; they do where all ways lead to one file |
| DriveIndex.SameTitleSiblings | src/providers/gdrive/GDriveOperation.cpp:32-40 | an instance: two different siblings of one title, on which they disagree |
| DriveIndex.ListingIsComplete | src/providers/gdrive/GDriveOperation.cpp:56-75 | listing a folder never misses a direct child |
| DriveIndex.RootListingIsExact | src/providers/gdrive/GDriveOperation.cpp:56-75 | on an index, listing "/" gives exactly its direct children |
| DriveIndex.ListingIsExactWhen | src/providers/gdrive/GDriveOperation.cpp:56-75 | on an index, listing any other path gives exactly the direct children if and only if the path occurs only in keys at or below it |
| DriveIndex.SiblingIsListed | src/providers/gdrive/GDriveOperation.cpp:70-71 | the sibling "/ab" is listed under "/a" |
| DriveIndex.DirectChildrenAreTheFolders | src/providers/gdrive/GDriveOperation.cpp:56-75 | a path plus one clean name is a direct child in the index exactly when the folder it means has a child of that title, and is bound to that child |
| WorkQueue.ItemsAreConserved | src/providers/gdrive/include/common/queue.hpp:23-65 | for any number of threads and any wakeups: items popped followed by items queued are the items enqueued, in order, and these with what waiting producers hold are exactly the items pushed |
| WorkQueue.CapacityHolds | src/providers/gdrive/include/common/queue.hpp:23-34 | with one producer and no spurious wakeup the queue never exceeds its capacity, however it is popped |
| WorkQueue.WaitingProducerHasWorkAhead | src/providers/gdrive/include/common/queue.hpp:23-50 | with `try_pop` consumers and capacity at least 2 an unsignalled waiting producer has at least capacity - 1 items ahead of it |
| WorkQueue.TwoTryPopsSignal | src/providers/gdrive/include/common/queue.hpp:36-50 | from such a state two `try_pop`s release the producer |
| WorkQueue.CapacityOneNeverWakes | src/providers/gdrive/include/common/queue.hpp:44-46 | with capacity 1 no run of `try_pop`s ever releases a waiting producer |
| WorkQueue.WaitingProducerMeansFull | src/providers/gdrive/include/common/queue.hpp:52-65 | with `pop` consumers an unsignalled producer waits only while the queue is full, for every capacity |
| WorkQueue.LostSignalIsLostForEver | src/providers/gdrive/include/common/queue.hpp:44-63 | once a producer waits unsignalled with at most capacity - 2 items ahead, no continuation by a single producer releases it |
| WorkQueue.MixedPopsLoseSignal | src/providers/gdrive/include/common/queue.hpp:36-65 | for every capacity of at least 2, a single producer that fills the queue and waits, one `try_pop` and one `pop` reach such a state, no thread entering a call while in another |
| WorkQueue.OneWayToPopKeepsSignal | src/providers/gdrive/include/common/queue.hpp:36-65 | with capacity at least 2 and either `try_pop` only or `pop` only no run of a single producer reaches it |
| WorkQueue.DeadlockExactlyAtCapacityOne | src/providers/gdrive/include/common/queue.hpp:23-65 | one producer and one `pop` consumer, two threads each in one call at a time, can end up both waiting with no signal on its way if and only if the capacity is 1 |
| WorkQueue.WaitingConsumerIsAlone | src/providers/gdrive/include/common/queue.hpp:26-28 | for every other capacity a waiting consumer never faces a waiting producer, and at most one item, queued by a resumed push without a signal, lies unnoticed |
| WorkQueue.WaitingConsumersAreNotified | src/providers/gdrive/include/common/queue.hpp:23-34 | a push that did not wait notifies: for any capacity, threads and wakeups, while a consumer waits there are no more items than consumers woken to fetch them, but for one item for each push that went through a wait |
| WorkQueue.PopReturnsWithItem | src/providers/gdrive/include/common/queue.hpp:36-65 | a `pop` comes back only with an item: the items taken and the consumers still inside `pop` are as many as the calls of `pop` and the calls of `try_pop` that met an item |
| WorkQueue.BothSidesAsleep | src/providers/gdrive/include/common/queue.hpp:26-28 | the run that deadlocks at capacity 1 |
| WorkQueue.AboveCapacityNothingBlocks | src/providers/gdrive/include/common/queue.hpp:26-26 | above its capacity the queue takes any number of further items |
| WorkQueue.TwoProducersExceedAnyBound | src/providers/gdrive/include/common/queue.hpp:23-34 | with two producers, each in one call at a time, and no spurious wakeup the size exceeds every bound, for every capacity |
| WorkQueue.SpuriousWakeupExceedsAnyBound | src/providers/gdrive/include/common/queue.hpp:26-28 | with one producer, in one call at a time, and a run with exactly one spurious wakeup the size exceeds every bound, for every capacity |
| WorkQueue.StrandedByTryPopExactly | src/providers/gdrive/include/common/queue.hpp:23-50 | with `try_pop` only, two producers can leave one of them waiting unsignalled beside an empty queue if and only if the capacity is 1 or at least 3 |
| WorkQueue.StrandedByPopExactly | src/providers/gdrive/include/common/queue.hpp:23-65 | with `pop` only they can if and only if the capacity is at least 2 |
| WorkQueue.NobodyStrandedByTryPop | src/providers/gdrive/include/common/queue.hpp:36-50 | with `try_pop` only and capacity 2 this happens to no number of producers, whatever wakes them |
| WorkQueue.NobodyStrandedByPop | src/providers/gdrive/include/common/queue.hpp:52-65 | with `pop` only and capacity 1 neither |
| WorkQueue.StrandedStays | src/providers/gdrive/include/common/queue.hpp:36-65 | such a producer stays as it is, however often the queue is popped, until somebody pushes |
| WorkQueue.SolePusherIsOneProducer | src/providers/gdrive/include/common/queue.hpp:23-34 | a run in which only one thread pushes, in one call at a time, has one producer in the sense of the capacity results |
| WorkQueue.Queue.constructor | src/providers/gdrive/include/common/queue.hpp:15-18 | a new queue is empty and nobody waits |
| WorkQueue.Queue.Push | src/providers/gdrive/include/common/queue.hpp:23-34 | `push` up to its end or its wait is one step of the state machine, for some choice of the consumer signalled |
| WorkQueue.Queue.PushResumed | src/providers/gdrive/include/common/queue.hpp:27-29 | after its wait `push` enqueues without testing the size again and without signalling |
| WorkQueue.Queue.TryPopItem | src/providers/gdrive/include/common/queue.hpp:36-50 | `try_pop` is one step: it takes the front item if there is one and signals a producer exactly at size capacity - 1 before the pop |
| WorkQueue.Queue.Pop | src/providers/gdrive/include/common/queue.hpp:52-65 | `pop` up to its end or its wait is one step |
| WorkQueue.Queue.PopResumed | src/providers/gdrive/include/common/queue.hpp:54-64 | after its wait `pop` tests the queue again |
| ThreadPool.JobsAreConserved | src/providers/gdrive/include/common/threadpool.hpp:53-84 | at every step of any run each job added is in exactly one place (waiting, queued, in flight, done, dropped), as many times as it was added |
| ThreadPool.NobodyExitsEarly | src/providers/gdrive/include/common/threadpool.hpp:390-399 | before a shutdown is asked for no worker exits and nothing is dropped |
| ThreadPool.QueueIsWorkedOff | src/providers/gdrive/include/common/threadpool.hpp:390-410 | a pool that is not being shut down works its queue off: whichever workers take them, after boundedly many steps the queue is empty and every job that was in it is done or being run |
| ThreadPool.SoleWorkerRunsTheQueue | src/providers/gdrive/include/common/threadpool.hpp:390-410 | a single worker runs the whole queue, in order, in four steps a job |
| ThreadPool.DrainingLasts | src/providers/gdrive/include/common/threadpool.hpp:395-399 | after a postponed shutdown with no add in progress or later, a worker leaves only on an empty queue and nothing is ever dropped |
| ThreadPool.PostponedShutdownRunsEverything | src/providers/gdrive/include/common/threadpool.hpp:53-68 | after a postponed shutdown with no add in progress or later, once every worker has exited each job ever added has run exactly as often as it was added and none is left anywhere |
| ThreadPool.PostponedShutdownEnds | src/providers/gdrive/include/common/threadpool.hpp:390-414 | a postponed shutdown ends, also with adds still waiting: if no further add comes, workers and waiting adds can take only boundedly many steps, a worker step is possible exactly while a worker is left, and where no add was in progress every job is then done |
| ThreadPool.ImmediateShutdownEnds | src/providers/gdrive/include/common/threadpool.hpp:390-397 | an immediate shutdown ends whoever adds: the workers take at most four steps each, and a step is possible exactly while a worker is left |
| ThreadPool.StepMakesProgress | src/providers/gdrive/include/common/threadpool.hpp:390-414 | every step of a worker or of a waiting add after a postponed shutdown lowers the bound on the steps left |
| ThreadPool.SomeWorkerCanStep | src/providers/gdrive/include/common/threadpool.hpp:402-410 | while a worker is left it is not blocked |
| ThreadPool.ExitedPoolLosesExactly | src/providers/gdrive/include/common/threadpool.hpp:53-68 | whatever the shutdown and whoever adds whenever, the jobs that never run are those queued or held by a waiting add when the last worker leaves and those added later; after a postponed shutdown the queue is empty at that moment |
| ThreadPool.PostponedShutdownLosesExactly | src/providers/gdrive/include/common/threadpool.hpp:53-84 | a postponed shutdown runs every job if and only if no thread is inside `add` when the last worker leaves and none enters it later |
| ThreadPool.LastExitExists | src/providers/gdrive/include/common/threadpool.hpp:390-414 | every run after which all workers have exited has a step that retires the last one |
| ThreadPool.LateAddIsLost | src/providers/gdrive/include/common/threadpool.hpp:65-65 | an add after the postponed shutdown can be cleared without having run |
| ThreadPool.ThreadPool.constructor | src/providers/gdrive/include/common/threadpool.hpp:28-51 | a new pool has all its workers at the top of their loop and an empty queue |
| ThreadPool.ThreadPool.AddJob | src/providers/gdrive/include/common/threadpool.hpp:70-84 | `add` is a push of the job |
| ThreadPool.ThreadPool.RunThreadStep | src/providers/gdrive/include/common/threadpool.hpp:390-414 | each test, queue call and job of the worker loop is one step of the state machine |
| ThreadPool.ThreadPool.RequestShutdown | src/providers/gdrive/include/common/threadpool.hpp:53-58 | an unknown mode means an immediate shutdown |
| ThreadPool.ThreadPool.FinishShutdown | src/providers/gdrive/include/common/threadpool.hpp:59-68 | once the joins have returned the queue is cleared and the pool stopped |
| Dispatcher.RequestsAreHandledInOrder | src/providers/internal/InternalStorageProvider.cpp:488-508 | for any interleaving, requests handled, then the one being handled, then those queued are the requests added in lock order: each once, one at a time |
| Dispatcher.NoWakeupIsLost | src/providers/internal/InternalStorageProvider.cpp:372-379 | whenever the dispatcher is blocked on a non-empty queue a notification is pending |
| Dispatcher.NeverStuck | src/providers/internal/InternalStorageProvider.cpp:488-508 | until everything is handled some step of the dispatcher or of a notifier is possible |
| Dispatcher.StepMakesProgress | src/providers/internal/InternalStorageProvider.cpp:488-508 | every such step lowers the bound on the steps left |
| Dispatcher.EveryRequestIsHandled | src/providers/internal/InternalStorageProvider.cpp:372-508 | once requests stop coming, every way to go on ends within the bound and with every request handled, in order |
| Dispatcher.Provider.AddRequest | src/providers/internal/InternalStorageProvider.cpp:372-377 | the locked part of `addRequest` is one step |
| Dispatcher.Provider.NotifyOne | src/providers/internal/InternalStorageProvider.cpp:378-378 | `notify_one` wakes the dispatcher exactly if it is waiting |
| Dispatcher.Provider.DispatchStep | src/providers/internal/InternalStorageProvider.cpp:488-508 | each turn of the loop is a step: wait, fetch the front request, or handle it outside the lock |
| SambaMounts.RunKeepsTables | src/providers/network/NetworkProvider.cpp:120-235 | every run of mount and eject keeps: sessions and paths known for the same drives, the paths distinct and exactly the mounted ones, share keys leading to different live drives, ids at most the counter, the mirror equal to the path table, and all of it in agreement with the history, which is told from the requests and the outcomes of the system calls alone |
| SambaMounts.MountKeepsInv | src/providers/network/NetworkProvider.cpp:163-233 | a mount keeps the tables consistent as long as the counter does not wrap |
| SambaMounts.EjectKeepsInv | src/providers/network/NetworkProvider.cpp:742-786 | an eject keeps the tables consistent, and its not-mounted branch is never taken |
| SambaMounts.ValidExactlyWhenLive | src/providers/network/NetworkProvider.cpp:90-97 | an operation is accepted if and only if a complete request of that session for a free share and path, whose directory was made and whose mount call succeeded, produced the drive, and no valid eject of it with a successful umount came since |
| SambaMounts.EjectedStaysInvalid | src/providers/network/NetworkProvider.cpp:764-771 | an id whose drive a valid eject has unmounted never becomes valid again, for any session |
| SambaMounts.DriveIdInjective | src/providers/network/NetworkProvider.cpp:108-112 | different counter values print different drive ids |
| Strings.DecimalReadsBack | src/providers/network/NetworkProvider.cpp:108-112 | a number prints as decimal digits that denote it, without a leading zero |
| SambaMounts.ServeThenValidate | src/providers/network/NetworkProvider.cpp:90-235 | a provider object that has served any requests validates exactly what their history says |
| SambaMounts.AlreadyMountedExactly | src/providers/network/NetworkProvider.cpp:163-171 | a mount is answered "already mounted" if and only if the request is complete and its share has been mounted by a drive of which no eject has been tried since, with or without success |
| SambaMounts.MountAnsweredExactly | src/providers/network/NetworkProvider.cpp:120-235 | every reply to a mount: which missing field, taken share, failed directory or failed mount call gets which answer, told from the request and the history |
| SambaMounts.MountChangesExactly | src/providers/network/NetworkProvider.cpp:163-233 | every table after a mount: a drive with the next id is added if and only if the request is complete, share and path are free, the directory is made and the mount call succeeds; nothing changes otherwise |
| SambaMounts.FailedMountChangesNothing | src/providers/network/NetworkProvider.cpp:173-218 | a mount of which a system call fails changes no table and is answered as mounted only for a path that was mounted before |
| SambaMounts.EjectExactly | src/providers/network/NetworkProvider.cpp:742-786 | a valid eject whose umount succeeds takes the drive out of every table and touches no other drive, one whose umount fails only gives up the share key, an invalid one does nothing |
| SambaMounts.FailedEjectAllowsSecondMount | src/providers/network/NetworkProvider.cpp:755-785 | after an eject that failed at the umount the same share mounts a second time, and both drives are valid |
| SambaMounts.ShareKeyInjective | src/providers/network/NetworkProvider.cpp:164-164 | different shares have different keys where addresses and user names hold no underscore |
| SambaMounts.ShareKeysCollide | src/providers/network/NetworkProvider.cpp:164-164 | with underscores two shares can have one key |
| SambaMounts.PathAcceptedExactly | src/utils/SAFUtilityOperation.cpp:59-68 | after any run a path is accepted for a drive if and only if the drive is live in the history and the path begins with the mount path of the mount that produced it |
| SambaMounts.ServeThenValidatePath | src/utils/SAFUtilityOperation.cpp:59-68 | a provider object that has served any requests, with its mirror, accepts exactly these paths if they exist |
| SambaMounts.OtherMountAcceptedExactly | src/utils/SAFUtilityOperation.cpp:64-65 | of two live drives of any run, one's test accepts a path that lies in the other's mount and not in its own if and only if the other's mount path goes on without a slash where its own ends, as "/tmp/h_12" after "/tmp/h_1", or its own mount lies inside the other's |
| SambaMounts.PrefixReachesOtherExactly | src/utils/SAFUtilityOperation.cpp:64-65 | the same of any two different mount paths |
| SambaMounts.Serve | src/providers/network/NetworkProvider.cpp:120-235 | a provider object that serves any requests holds the tables of their run |
| SambaMounts.NetworkProvider.GenerateUniqueSambaDriveId | src/providers/network/NetworkProvider.cpp:108-112 | the id printed is the incremented unsigned counter's |
| SambaMounts.NetworkProvider.ValidateSambaOperation | src/providers/network/NetworkProvider.cpp:90-97 | accepted exactly when the drive is known and belongs to the session |
| SambaMounts.NetworkProvider.MountSambaServer | src/providers/network/NetworkProvider.cpp:120-235 | every branch of a mount: its reply and the state of all tables after it |
| SambaMounts.NetworkProvider.EjectDrive | src/providers/network/NetworkProvider.cpp:742-786 | every branch of an eject: its reply and the state of all tables after it, the share key being gone even when the umount fails |
| SambaMounts.NetworkProvider.EraseKey | src/providers/network/NetworkProvider.cpp:755-762 | the loop that stops at its first match removes every share key of the drive, since there is at most one |
| SambaMounts.NetworkProvider.ListStorages | src/providers/network/NetworkProvider.cpp:714-727 | exactly the drives on which the session may operate, each with its mount path |
| SambaMounts.SAFUtilityOperation.SetDriveDetails | src/utils/SAFUtilityOperation.cpp:70-80 | clearing and refilling makes the mirror equal to the table given, for Samba only |
| SambaMounts.SAFUtilityOperation.ValidateSambaPath | src/utils/SAFUtilityOperation.cpp:59-68 | the string search accepts exactly the existing paths that begin with the mount path mirrored for the drive |
| Utf8.DecodeEncodeExactly | src/providers/gdrive/include/jconer/util.hpp:56-116 | encoding then decoding gives back a code point at the same length if and only if it is no surrogate |
| Utf8.EncodingIsCharExactly | src/providers/gdrive/include/jconer/util.hpp:56-85 | what `encode` writes is a UTF8-char of section 4 of RFC 3629 if and only if the code point is no surrogate |
| Utf8.ValueOfEncoding | src/providers/gdrive/include/jconer/util.hpp:56-85 | encoding keeps every bit of a code point, surrogate or not |
| Utf8.CharIsEncoding | src/providers/gdrive/include/jconer/util.hpp:87-116 | every UTF8-char is the encoding of the one scalar value it carries: no overlong form and no surrogate |
| Utf8.DecodeOneFollowsSyntax | src/providers/gdrive/include/jconer/util.hpp:87-127 | reading succeeds with length n exactly when the first n bytes are a UTF8-char |
| Utf8.DecodeEncodeAll | src/providers/gdrive/include/jconer/util.hpp:56-116 | a concatenation of encodings decodes to the whole sequence |
| Utf8.DecodeAllExactly | src/providers/gdrive/include/jconer/util.hpp:56-116 | a byte string decodes to a sequence if and only if it is the encoding of that sequence |
| Utf8.AcceptedExactlyUtf8 | src/providers/gdrive/include/jconer/util.hpp:87-127 | a byte string is read to its end if and only if it is UTF8-octets of section 4 of RFC 3629, a concatenation of UTF8-chars |
| Utf8.ChecksAreSyntax | src/providers/gdrive/include/jconer/util.hpp:108-112 | the range checks after the loop accept exactly the UTF8-chars |
| Utf8.Utf8Length | src/providers/gdrive/include/jconer/util.hpp:118-127 | the length read off a first byte is that of every UTF8-char starting with it |
| Utf8.Encode | src/providers/gdrive/include/jconer/util.hpp:56-85 | writes the encoding and nothing else if it fits, and otherwise nothing and -1 |
| Utf8.Decode | src/providers/gdrive/include/jconer/util.hpp:87-116 | gives count and value of the UTF8-char at the pointer, or 0 and writes nothing |
| VarString.RunOps | src/providers/gdrive/include/common/varstring.hpp:142-230 | after any run of appends, in-range drops and clears the buffer holds what a plain string would, with one place spare; the capacities it has had are the computed ones, those given up and 1024 fit into the current one, which is at most twice the largest size ever held and 1024 |
| VarString.CapacitiesAreBounded | src/providers/gdrive/include/common/varstring.hpp:142-221 | for any run, the capacities computed from the operations alone at least double each time, and the sum of all but the last, with 1024, fits into the last, which is at most twice the largest size ever held and 1024 |
| VarString.GrownFits | src/providers/gdrive/include/common/varstring.hpp:204-218 | a new capacity holds what it has to, is at least twice the old one and at most twice the new size and 1024 |
| VarString.Buffer.AppendChar | src/providers/gdrive/include/common/varstring.hpp:148-157 | appends one character; the capacity after it is the computed one |
| VarString.Buffer.AppendBytes | src/providers/gdrive/include/common/varstring.hpp:204-221 | appends n characters; the capacity after it is the computed one, doubled where that is enough |
| VarString.Buffer.Append | src/providers/gdrive/include/common/varstring.hpp:174-181 | appends a string up to its first NUL; the capacity after it is the computed one |
| VarString.Buffer.DropOne | src/providers/gdrive/include/common/varstring.hpp:159-164 | removes the last character if there is one |
| VarString.Buffer.Drop | src/providers/gdrive/include/common/varstring.hpp:166-172 | removes the last len characters, for len within the contents |
| VarString.Buffer.ToString | src/providers/gdrive/include/common/varstring.hpp:223-226 | the contents as a string |
| VarString.JoinSplit | src/providers/gdrive/include/common/varstring.hpp:88-102 | joining what a split gave restores the string, for every delimiter but the empty one |
| VarString.SplitJoinExactly | src/providers/gdrive/include/common/varstring.hpp:75-102 | splitting a join restores the parts if and only if no part lets the delimiter be found before its own end and the last does not contain it |
| VarString.SplitString | src/providers/gdrive/include/common/varstring.hpp:88-102 | the loop over positions computes the recursive split |
| VarString.JoinStrings | src/providers/gdrive/include/common/varstring.hpp:75-86 | `join` drops the whole separator after appending only what its C string shows, so the result is the join if and only if the separator holds no NUL |
| VarString.CStrOfNulFree | src/providers/gdrive/include/common/varstring.hpp:174-181 | a string passes through its C string unchanged if and only if it holds no NUL |
| FormEncoding.ParseEncodeExactly | src/providers/gdrive/include/gdrive/util.hpp:68-78 | splitting the encoded form on '&', each field on its first '=', and percent-decoding the values gives back the form, in order, if and only if keys are free of '&', '=' and NUL and values of NUL |
| FormEncoding.MapRoundTrip | src/providers/gdrive/include/gdrive/util.hpp:68-78 | for every map and every iteration order the same holds of the map |
| FormEncoding.ParseEncodeShown | src/providers/gdrive/include/gdrive/util.hpp:68-78 | with clean keys the form comes back with its values cut at their first NUL |
| FormEncoding.DecodeEncode | src/providers/gdrive/include/gdrive/util.hpp:51-66 | every string percent-decodes (section 2.1 of RFC 3986) from its encoding |
| FormEncoding.EncodingIsSafe | src/providers/gdrive/include/gdrive/util.hpp:34-66 | an encoding holds no unsafe character but the '%' of its escapes, and no NUL that was not there |
| FormEncoding.UnsafeCharacters | src/providers/gdrive/include/gdrive/util.hpp:34-34 | the escaped characters are ASCII and no hexadecimal digit, and '%', '&' and '=' are among them |
| FormEncoding.UnsafeExactly | src/providers/gdrive/include/gdrive/util.hpp:34-34 | escaped are exactly the printable ASCII characters that are neither alphanumeric nor one of nine marks |
| FormEncoding.CheckUnsafe | src/providers/gdrive/include/gdrive/util.hpp:40-46 | the pointer walk finds exactly the characters of the list |
| FormEncoding.Hex | src/providers/gdrive/include/gdrive/util.hpp:58-58 | the digit printed reads back as its value |
| FormEncoding.Encode | src/providers/gdrive/include/gdrive/util.hpp:51-66 | the pointer walk over the buffer computes the encoding of the string up to its first NUL |
| FormEncoding.EncodeMap | src/providers/gdrive/include/gdrive/util.hpp:68-78 | the fields joined by '&', the last '&' dropped |
| UsbDrives.ShownIdLeadsBackExactly | src/providers/usb/USBJsonParser.cpp:68-95 | the id printed for an entry leads back to that very entry if and only if its serial number is present, dash-free and not taken by a later device, and its uuid is not that of an earlier drive of the device (or is empty and the drive the only one) |
| UsbDrives.LookupsAnswerFromEntry | src/providers/usb/USBStorageProvider.cpp:810-985 | an id that leads to an entry is answered with that entry's mount state, device number and name, the name if and only if it is not an empty one among several drives |
| UsbDrives.HealthyReplyIsAnswered | src/providers/usb/USBStorageProvider.cpp:728-785 | after a reply with distinct dash-free serials, distinct non-empty uuids and non-empty names, every drive shown has an id that exists and resolves to the name shown beside it |
| UsbDrives.ShownIdsDiffer | src/providers/usb/USBJsonParser.cpp:79-84 | two findable entries never share a printed id |
| UsbDrives.UnfindableEntries | src/providers/usb/USBStorageProvider.cpp:814-819 | a dash in a serial number leads nowhere, and a repeated serial number leads to the other device |
| UsbDrives.TableHoldsLast | src/providers/usb/USBStorageProvider.cpp:753-784 | the table holds, for each serial number, the last device that has it |
| UsbDrives.ShownIsAnEntry | src/providers/usb/USBJsonParser.cpp:68-95 | every drive shown is a drive of a device of the reply |
| UsbDrives.EntryIsShown | src/providers/usb/USBJsonParser.cpp:68-95 | every drive of every device of the reply is shown |
| UsbDrives.RefusedExactly | src/providers/usb/USBJsonParser.cpp:28-66 | a reply is refused if and only if it is a success with more than one device list; a failed one, or one that lists nothing, shows nothing |
| UsbDrives.ShownExactly | src/providers/usb/USBJsonParser.cpp:38-95 | of a successful reply with one device list, or with one at its top level, which wins, exactly the drives of its devices are shown, each with its name and, exactly if it has a uuid, the id made of serial number and uuid |
| UsbDrives.TabledExactly | src/providers/usb/USBStorageProvider.cpp:728-785 | the table after a reply knows exactly the serial numbers of the devices the same list has, each with its last device |
| UsbDrives.DashedIdLeads | src/providers/usb/USBStorageProvider.cpp:812-915 | an id with a dash leads to the first drive of that uuid on the device of that serial number, and to no other place |
| UsbDrives.BareIdLeads | src/providers/usb/USBStorageProvider.cpp:812-915 | a serial number alone, or with a dash behind it, leads to the only drive of its device and to none of several |
| UsbDrives.USBStorageProvider.PopulateDeviceInfo | src/providers/usb/USBStorageProvider.cpp:728-785 | the nested loops store the devices of the reply in order, later ones over earlier ones of the same serial number |
| UsbDrives.USBStorageProvider.GetDriveName | src/providers/usb/USBStorageProvider.cpp:810-871 | the name, or sentinel, at the place the id leads to |
| UsbDrives.USBStorageProvider.IsStorageIdExists | src/providers/usb/USBStorageProvider.cpp:873-916 | true exactly when the id leads to a drive |
| UsbDrives.USBStorageProvider.IsStorageDriveMounted | src/providers/usb/USBStorageProvider.cpp:918-961 | true exactly when the id leads to a mounted drive, so mounted implies exists on any table |
| UsbDrives.USBStorageProvider.GetStorageNumber | src/providers/usb/USBStorageProvider.cpp:963-985 | the device's number, whatever follows the first '-' |
| UsbDrives.USBStorageProvider.GetPropertiesMethod | src/providers/usb/USBStorageProvider.cpp:51-92 | once the id exists the sentinels come back only from drives so named, or nameless among several: the several-partitions error never means several partitions |
| UsbDrives.USBStorageProvider.OnListStorages | src/providers/usb/USBStorageProvider.cpp:179-182 | the table and the list shown come from the same reply |
| UsbDrives.ParseListOfStorages | src/providers/usb/USBJsonParser.cpp:17-97 | the nested loops print every drive of every device, or refuse more than one device list |
| UsbDrives.Locate | src/providers/usb/USBStorageProvider.cpp:887-915 | a place found is a drive of a device of the table |
| Upnp.SplitsAgreeExactly | src/providers/upnp/UpnpOperation.cpp:106-119 | for every path the loop finds the names the drive provider's splitter finds if and only if the path is empty, or passes the provider's guard and has only odd runs of slashes |
| Upnp.CleanPathIsCut | src/providers/upnp/UpnpOperation.cpp:106-119 | a path made of clean names is cut into them by both splitters |
| Upnp.DoubledSlash | src/providers/upnp/UpnpOperation.cpp:113-118 | a doubled slash costs the next name its first character, or makes `substr` throw |
| Upnp.NamesFromExactly | src/providers/upnp/UpnpOperation.cpp:108-119 | from behind an odd number of slashes the loop finds the remaining components if and only if the rest is tidy |
| Upnp.NamesKeepNoMore | src/providers/upnp/UpnpOperation.cpp:108-119 | the names found never have more characters than the rest of the path has between its slashes |
| Upnp.ComponentsKeepAll | src/providers/gdrive/GDriveProvider.cpp:953-963 | the drive provider's components have all of them |
| Upnp.LeadingRun | src/providers/network/NetworkProvider.cpp:380-387 | for a path with a leading slash the guard and odd runs are what the loop needs |
| Upnp.WalkReaches | src/providers/upnp/UpnpOperation.cpp:120-132 | where a chain of first-titled directories ends, that container is reached |
| Upnp.ReachedByWalk | src/providers/upnp/UpnpOperation.cpp:120-132 | a container reached is the end of such a chain; otherwise the chain stops at a name whose lookup gives the negative result |
| Upnp.UpnpOperation.GetNextDirId | src/providers/upnp/UpnpOperation.cpp:42-76 | the id of the first directory of that title, or -1 also when the request fails |
| Upnp.UpnpOperation.SplitPath | src/providers/upnp/UpnpOperation.cpp:106-119 | the loop, with positions that wrap round, computes the names or throws |
| Upnp.UpnpOperation.GetContainerId | src/providers/upnp/UpnpOperation.cpp:120-133 | the container the names lead to, the first negative id on the way, or -1 for no names |
| Paging.ListFolderContents | src/providers/internal/InternalStorageProvider.cpp:70-85 | the indexed loop stays in bounds and selects the page |
| Paging.List | src/providers/gdrive/GDriveProvider.cpp:250-285 | the loop with `continue` and `break` selects the same page of the sorted entries |
| Paging.SamePage | src/providers/gdrive/GDriveProvider.cpp:250-285 | both providers select the same page for every offset and limit |
| Paging.Bounds | src/providers/internal/InternalStorageProvider.cpp:71-74 | the bounds after the signed and unsigned comparisons, for negative values too |
| Paging.PagesAreAPrefix | src/providers/internal/InternalStorageProvider.cpp:70-85 | the first k pages are the first k times size entries, none missing, none twice, in order |
| Paging.PagesMakeTheWhole | src/providers/internal/InternalStorageProvider.cpp:70-85 | pages that cover the listing give the listing, and the next page is empty |
| Paging.EmptyPageMarksTheEnd | src/providers/internal/InternalStorageProvider.cpp:70-85 | a page is empty if and only if the pages before it are the whole listing |
| Paging.FetchAll | src/providers/internal/InternalStorageProvider.cpp:70-85 | a client that asks for page after page until one is empty has the whole listing, in order and once, with no page more than needed |

## Left out

- Luna bus calls, JSON schema checks, reply formatting, error texts and client watching: plumbing around the modelled decisions.
- libcurl, SSDP, XML parsing, libgdrive and the file system: what they answer is a parameter (a folder graph, a browse function, a success flag).
- The JSON text parser and dumper behind the serializers: the model works on `getContent()` trees, and appending a fresh node succeeds.
- C++ overload resolution, `float` narrowing, rounding of `double` and `vector<bool>` proxies in the serializer: the overload is chosen by type and doubles are reals.
- A `serialize` member that does not list the same fields when writing and reading, or that does more than list them: a class is its list of field types.
- DecodeIsTyped: assumes the order of map keys is transitive, which `std::map` demands of it.
- InsertAllIsSorted: assumes the same.
- InsertAllKeepsFirst: assumes that order is a strict weak one, which `std::map` demands too.
- Using a node as a kind it is not: undefined in the source, a `WrongNode` result here.
- Cyclic Drive graphs: `getChildren` does not terminate on them.
- Titles that are empty or contain a slash: the index is then still what the recursion collects, but no meaning is stated for its keys.
- SharedTitlesAgreeExactly: takes names whose first children exist; where one is missing, below folders that share titles, the walk passes over it and is not compared with the index.
- A Drive that changes, or a request that fails, while it is being indexed or walked.
- Errors returned by the locks and condition variables.
- RequestShutdown: not modelled for a second `destroy` while the first is running.
- `pthread_create` failing in the pool's constructor, the other overloads of `add`, and memory ordering of the unlocked `_shutdown`: each read is one step.
- Jobs and requests that do not return: running one is one step.
- Dispatcher shutdown: a provider's destructor sets `mQuit` without the lock.
- The provider copies of the dispatcher, of the drive-id checks and of the page window: the same code again.
- Fairness of the scheduler: `ThreadPool.PostponedShutdownEnds` and `Dispatcher.EveryRequestIsHandled` bound every run and show that it can go on, not that a scheduler lets it.
- MountKeepsInv: assumes the unsigned id counter does not wrap; after a wrap ids are reused.
- ValidExactlyWhenLive: assumes fewer successful mounts than the counter can count, for the same reason.
- EjectDrive: assumes the table invariant, which every run keeps, so that the loop that stops at its first match has the only one.
- ListStorages: assumes sessions and paths are known for the same drives, which every run keeps; otherwise the source's lookup would insert an empty path.
- Permissions, credentials and the mount option text of a Samba mount, and the removal of the mount directory after an eject.
- The UPnP drive tables of the network provider: the same pattern with fewer maps.
- Drop: not modelled for more characters than the buffer holds, where the source computes a negative length.
- JoinStrings: not modelled for a separator longer than everything appended, for the same reason.
- SplitString: not modelled for an empty delimiter, on which the source does not terminate.
- Capacities beyond `int` and failing allocations in the buffer.
- `Path::basename`, `Path::dirname` and the strip and prefix helpers: one-line functions.
- The order in which a `std::map` or `std::set` is iterated: the models take the entries in any order, or as a sequence.
- The mount path, file system, set id, type and volume label of a USB drive: copied, never searched.
- JSON values of an unexpected kind in a USB reply: a field is present with its kind or absent.
- GetContainerId: takes the control URL as given; fetching the device description is not part of this model.
- ListFolderContents: assumes the sums of offset and limit stay within `int`.
- FetchAll: assumes the listing and two pages more stay within `int`.
- List: assumes the same as `ListFolderContents`, and that the two calls of `getFileMap` give the same map.
