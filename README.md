# Gobblin state store, job locks and copy descriptors, in Dafny

This project models four pieces of Gobblin and proves properties of the model.

- **FsStateStore** keeps Gobblin `State` objects on a Hadoop file system. A store is a directory. A table
  is a SequenceFile of `(key, state)` records in that directory, named with the store's extension.
  A table name whose part after the last `-` is `current`, in any case, resolves to the
  lexicographically greatest table of its family. `putAll` writes to a `_tmp_` sibling and renames it
  over the table. It writes to the table directly when the file system's scheme does not rename
  atomically.
- **ZookeeperBasedJobLock** is a job lock held as a Curator semaphore mutex on `/locks/<job name>`.
  All locks of a process share three things: the Curator framework, the reaper of abandoned lock
  nodes, and a registry of lock event listeners keyed by lock path.
- **JobLockFactory** picks the lock class named by `job.lock.type`. It falls back to
  `FileBasedJobLock` and initialises the chosen lock once.
- **CopyableFile.Builder** builds a copy descriptor. `build()` fills every unset field from the
  origin file and the copy configuration. These fields are the destination's owner, group and
  permission, one entry per ancestor directory, the checksum, the file set and the timestamps.

The modules follow the program:

- `StateStoreSpec` holds the naming rules and the specification functions of the reads.
- `Metastore` holds the `FsStateStore` class. It works over `HadoopFs`, an abstract file system
  tree with explicit faults.
- `Locks` holds the lock, its process-wide `LockRegistry`, and an abstract single-holder mutex
  over a `Coordinator` that stands for the ZooKeeper ensemble.
- `LockFactory` holds the lock factory.
- `Copy` holds `CopyableFile` and its `Builder`.
- `JavaLang`, `Sequences` and `Wrappers` hold the parts of the Java library the core relies on:
  `String.lastIndexOf`, `compareTo`, `equalsIgnoreCase`, `Integer.parseInt` and 32-bit
  multiplication. Each is modelled only as far as the core needs it; "## Left out" says where
  that is narrower than Java.

What the model takes as inputs or parameters:

- **File system failures** (mkdirs, createNewFile, a writer failing after k appends, rename) are
  fixed when the file system is built.
- **The scheme of the file system and the set of non-atomic schemes** are constructor parameters.
- **The origin file system of a copy** is a pair of lookup maps.
- **Connection loss**, and whether the next start of a reaper fails, are states of the coordinator that a caller sets between calls.

## Model

| member | source | states |
|---|---|---|
| StateStoreSpec.NormalizeExtension | gobblin-metastore/src/main/java/gobblin/metastore/FsStateStore.java:447-449 | the normalised extension starts with "." and ends with the given extension, adding at most one character |
| StateStoreSpec.NormalizeExtensionIdempotent | gobblin-metastore/src/main/java/gobblin/metastore/FsStateStore.java:447-449 | normalising a normalised extension changes nothing |
| StateStoreSpec.NormalizeTableName | gobblin-metastore/src/main/java/gobblin/metastore/FsStateStore.java:451-453 | the result starts with the table name and ends with the extension; a name that already ends with it is kept |
| StateStoreSpec.NormalizeTableNameIdempotent | gobblin-metastore/src/main/java/gobblin/metastore/FsStateStore.java:451-453 | normalising a normalised table name changes nothing |
| StateStoreSpec.NameInfoOfCurrent | gobblin-metastore/src/main/java/gobblin/metastore/FsStateStore.java:420-428 | after the extension is stripped, "current" in any case parses to prefix "" and is current |
| StateStoreSpec.NameInfoAtLastSeparator | gobblin-metastore/src/main/java/gobblin/metastore/FsStateStore.java:429-437 | a name whose last "-" is at k has the text before k as its prefix, and is current exactly when the text after k equals "current" ignoring case |
| StateStoreSpec.NameInfoWithoutSeparator | gobblin-metastore/src/main/java/gobblin/metastore/FsStateStore.java:438-439 | a name that is not "current" and has no "-" parses to prefix "" and is not current |
| StateStoreSpec.ParseVersionedName | gobblin-metastore/src/main/java/gobblin/metastore/FsStateStore.java:420-440 | prefix + "-" + version + extension parses to that prefix, and is current exactly when the version is "current" ignoring case |
| StateStoreSpec.StripNormalized | gobblin-metastore/src/main/java/gobblin/metastore/FsStateStore.java:422-425 | stripping the extension from a normalised name gives the same name as stripping it from the original |
| StateStoreSpec.TmpNameNotCurrent | gobblin-metastore/src/main/java/gobblin/metastore/FsStateStore.java:207 | putting "_tmp_" in front of a name that is not current gives a name that is not current |
| StateStoreSpec.PutTarget | gobblin-metastore/src/main/java/gobblin/metastore/FsStateStore.java:206-208 | putAll's first target ends with the extension, and differs from the normalised table exactly when the tmp file is used |
| StateStoreSpec.PutTargetNotCurrent | gobblin-metastore/src/main/java/gobblin/metastore/FsStateStore.java:206-212 | for a table that is not current, the target is not current and is already normalised, so the nested create(store, table) never rejects it |
| StateStoreSpec.CandidatesMembership | gobblin-metastore/src/main/java/gobblin/metastore/FsStateStore.java:394-400 | the filtered listing holds exactly the listed names that start with prefix + "-" (any name for an empty prefix) and end with the extension |
| StateStoreSpec.MaxNameIsGreatest | gobblin-metastore/src/main/java/gobblin/metastore/FsStateStore.java:402-415 | the selection loop yields a name exactly when there is one; that name is listed and no listed name compares greater |
| StateStoreSpec.LatestIsGreatestCandidate | gobblin-metastore/src/main/java/gobblin/metastore/FsStateStore.java:388-418 | the latest table is the greatest accepted name; there is none when the store is absent or nothing qualifies |
| StateStoreSpec.TablePathResolution | gobblin-metastore/src/main/java/gobblin/metastore/FsStateStore.java:380-386 | a name that is not current resolves to its normalised name; "current" resolves to the latest table of any family |
| StateStoreSpec.TmpFileCanBeCurrent | gobblin-metastore/src/main/java/gobblin/metastore/FsStateStore.java:396-399 | a leftover "_tmp_Job-2.state" beside "Job-1.state" is what "current" resolves to, because the filter does not exclude tmp files |
| StateStoreSpec.FirstIndexOfKey | gobblin-metastore/src/main/java/gobblin/metastore/FsStateStore.java:259-263 | the index of the first record with the key, or -1 exactly when no record has it |
| StateStoreSpec.FirstIndexOfWrittenKey | gobblin-metastore/src/main/java/gobblin/metastore/FsStateStore.java:218-220 | looking up an id in the records putAll writes (keys are nullToEmpty of the ids) finds the first state with that id |
| StateStoreSpec.AbsentStoreReadsNothing | gobblin-metastore/src/main/java/gobblin/metastore/FsStateStore.java:303-354 | on an absent store, get finds nothing and both getAll calls return the empty list |
| StateStoreSpec.ReadBackWrittenTable | gobblin-metastore/src/main/java/gobblin/metastore/FsStateStore.java:242-336 | a table holding what putAll wrote reads back as exactly those states in order, and get(id) returns the first state with that id |
| StateStoreSpec.DeletedTableIsAbsent | gobblin-metastore/src/main/java/gobblin/metastore/FsStateStore.java:163-169 | once the normalised file is gone, the name resolves to no file and getAll returns nothing |
| Metastore.TableArgumentProblem | gobblin-metastore/src/main/java/gobblin/metastore/FsStateStore.java:136-139 | the argument checks pass exactly for a non-empty store, a non-empty table and a name that is not current |
| Metastore.ScanForKey | gobblin-metastore/src/main/java/gobblin/metastore/FsStateStore.java:259-263 | the reader loop of get returns a state exactly when some record has the key, and it is the first such record's |
| Metastore.ReadStates | gobblin-metastore/src/main/java/gobblin/metastore/FsStateStore.java:320-325 | the reader loop of getAll returns every record's state in file order |
| Metastore.FsStateStore.constructor | gobblin-metastore/src/main/java/gobblin/metastore/FsStateStore.java:92-99 | the tmp file is used exactly when the scheme is not a non-atomic one; the extension is normalised |
| Metastore.FsStateStore.Create | gobblin-metastore/src/main/java/gobblin/metastore/FsStateStore.java:114-119 | an empty name is rejected; the result is true exactly when the store directory exists afterwards, and only that directory can be new |
| Metastore.FsStateStore.CreateTable | gobblin-metastore/src/main/java/gobblin/metastore/FsStateStore.java:135-152 | argument errors change nothing; a failed mkdirs gives false; an existing table throws; otherwise createNewFile's result, with only the new empty file added |
| Metastore.FsStateStore.Exists | gobblin-metastore/src/main/java/gobblin/metastore/FsStateStore.java:163-169 | rejects empty names; otherwise whether the resolved name is an existing file; reads only |
| Metastore.FsStateStore.GetTablePath | gobblin-metastore/src/main/java/gobblin/metastore/FsStateStore.java:380-386 | the resolved name of the table, as specified by the string function TablePath |
| Metastore.FsStateStore.GetLatestStateFilePath | gobblin-metastore/src/main/java/gobblin/metastore/FsStateStore.java:388-418 | the greatest accepted listed name, or None exactly when the store is absent or nothing qualifies |
| Metastore.FsStateStore.Get | gobblin-metastore/src/main/java/gobblin/metastore/FsStateStore.java:242-274 | rejects empty store, table and id, in that order; otherwise the first state stored under the id in the resolved table, or None |
| Metastore.FsStateStore.GetAll | gobblin-metastore/src/main/java/gobblin/metastore/FsStateStore.java:303-336 | rejects empty names; otherwise every state of the resolved table in file order, or [] when it does not exist |
| Metastore.FsStateStore.GetAllInStore | gobblin-metastore/src/main/java/gobblin/metastore/FsStateStore.java:339-354 | rejects an empty store; otherwise getAll(store, name) of every listed file, concatenated in listing order |
| Metastore.FsStateStore.GetCurrent | gobblin-metastore/src/main/java/gobblin/metastore/FsStateStore.java:298-300 | get on "current", that is on the latest table of any family |
| Metastore.FsStateStore.GetAllCurrent | gobblin-metastore/src/main/java/gobblin/metastore/FsStateStore.java:284-286 | getAll on "current", that is on the latest table of any family |
| Metastore.FsStateStore.OpenTarget | gobblin-metastore/src/main/java/gobblin/metastore/FsStateStore.java:210-212 | the target exists afterwards exactly when it existed or the store and then the file could be created; no other file changes |
| Metastore.FsStateStore.WriteRecords | gobblin-metastore/src/main/java/gobblin/metastore/FsStateStore.java:214-225 | the target holds one (nullToEmpty(id), state) record per state in order, or the records before the failing append; no other file changes |
| Metastore.FsStateStore.PutAll | gobblin-metastore/src/main/java/gobblin/metastore/FsStateStore.java:199-231 | argument errors change nothing; on success the normalised table holds exactly the written records and the tmp file is gone; a failure with the tmp file leaves the table as it was; no other file or store changes |
| Metastore.FsStateStore.Put | gobblin-metastore/src/main/java/gobblin/metastore/FsStateStore.java:180-188 | putAll with the single state: argument errors change nothing; it fails exactly when the target cannot be created, the one append fails, or the rename fails; on success the table holds exactly that one record and the tmp file is gone; no other file or store changes |
| Metastore.FsStateStore.Delete | gobblin-metastore/src/main/java/gobblin/metastore/FsStateStore.java:357-367 | argument errors change nothing; otherwise only the normalised table file is removed, and only if it exists |
| Metastore.FsStateStore.DeleteStore | gobblin-metastore/src/main/java/gobblin/metastore/FsStateStore.java:371-378 | rejects an empty name; otherwise the store and all its files are gone and nothing else changes |
| Metastore.PutAllThenRead | gobblin-metastore/src/main/java/gobblin/metastore/FsStateStore.java:199-274 | after a successful putAll, getAll returns the states and get(id) the first state with that id |
| Metastore.DeleteThenExists | gobblin-metastore/src/main/java/gobblin/metastore/FsStateStore.java:357-367 | after delete(store, table), exists(store, table) is false |
| Locks.GetInt | gobblin-runtime/src/main/java/gobblin/runtime/locks/ZookeeperBasedJobLock.java:219-221 | a parsed int lies in the 32-bit range; text that is not a decimal int is a NumberFormatException |
| Locks.GetIntOfUnset | gobblin-runtime/src/main/java/gobblin/runtime/locks/ZookeeperBasedJobLock.java:219-221 | an unset key reads as the default, through Integer.toString and parseInt |
| Locks.GetIntOfSet | gobblin-runtime/src/main/java/gobblin/runtime/locks/ZookeeperBasedJobLock.java:219-221 | a key set to the decimal text of an int reads as that int |
| Locks.GetLong | gobblin-runtime/src/main/java/gobblin/runtime/locks/ZookeeperBasedJobLock.java:223-225 | a parsed long lies in the 64-bit range |
| Locks.GetLongOfUnset | gobblin-runtime/src/main/java/gobblin/runtime/locks/ZookeeperBasedJobLock.java:223-225 | an unset key reads as the default |
| Locks.GetMilliseconds | gobblin-runtime/src/main/java/gobblin/runtime/locks/ZookeeperBasedJobLock.java:227-229 | succeeds exactly when getInt does; the result is a 32-bit int |
| Locks.GetMillisecondsExact | gobblin-runtime/src/main/java/gobblin/runtime/locks/ZookeeperBasedJobLock.java:227-229 | up to 2147483 seconds the result is exactly seconds * 1000 |
| Locks.GetMillisecondsOverflow | gobblin-runtime/src/main/java/gobblin/runtime/locks/ZookeeperBasedJobLock.java:227-229 | beyond 2147483 seconds the int product wraps and is not seconds * 1000 |
| Locks.DefaultSettings | gobblin-runtime/src/main/java/gobblin/runtime/locks/ZookeeperBasedJobLock.java:51-56 | with the number keys unset: the connect string as given, 30000 ms connection timeout, 180000 ms session timeout, 1000 ms backoff, 10 retries, and a 300000 ms reaper threshold on /locks led at /services/locksChildReaper |
| Locks.DefaultAcquireTimeout | gobblin-runtime/src/main/java/gobblin/runtime/locks/ZookeeperBasedJobLock.java:83-84 | with the key unset, the acquire timeout is 5000 ms |
| Locks.CollapseSlashesNormal | gobblin-runtime/src/main/java/gobblin/runtime/locks/ZookeeperBasedJobLock.java:85 | Unix path normalisation leaves no "/" after another and no trailing "/" |
| Locks.CollapseUnderRoot | gobblin-runtime/src/main/java/gobblin/runtime/locks/ZookeeperBasedJobLock.java:85 | joining under /locks keeps the root and normalises the job name alone |
| Locks.LockPathOf | gobblin-runtime/src/main/java/gobblin/runtime/locks/ZookeeperBasedJobLock.java:85 | every lock path starts with /locks; a null job name is a NullPointerException and a NUL character an InvalidPathException |
| Locks.LockPathNormal | gobblin-runtime/src/main/java/gobblin/runtime/locks/ZookeeperBasedJobLock.java:85 | a lock path has no repeated and no trailing "/" |
| Locks.LockPathOfPlainName | gobblin-runtime/src/main/java/gobblin/runtime/locks/ZookeeperBasedJobLock.java:85 | a job name without "/" or NUL locks "/locks/" + name |
| Locks.EnsureShared | gobblin-runtime/src/main/java/gobblin/runtime/locks/ZookeeperBasedJobLock.java:166-217 | an existing framework or reaper is kept; a missing framework is built from the current properties; it succeeds exactly when the missing pieces' settings parse, and otherwise fails with the NumberFormatException and no new framework; a reaper that fails to start is left null and the call still succeeds |
| Locks.EnsureSharedReuses | gobblin-runtime/src/main/java/gobblin/runtime/locks/ZookeeperBasedJobLock.java:167-201 | once both exist, every later call keeps them whatever its properties |
| Locks.EnsureSharedOnce | gobblin-runtime/src/main/java/gobblin/runtime/locks/ZookeeperBasedJobLock.java:166-217 | after one successful call, a second call with any properties keeps the framework and a reaper that started; a reaper is missing only because its start failed, and the second call retries it with its own properties and start outcome, setting it when the start succeeds |
| Locks.InitializeOutcome | gobblin-runtime/src/main/java/gobblin/runtime/locks/ZookeeperBasedJobLock.java:81-89 | success implies a valid lock path; an unset job name always fails |
| Locks.LockRegistry.PutIfAbsent | gobblin-runtime/src/main/java/gobblin/runtime/locks/ZookeeperBasedJobLock.java:86 | a registered path keeps its listener; a new path is added with the given listener |
| Locks.LockRegistry.Remove | gobblin-runtime/src/main/java/gobblin/runtime/locks/ZookeeperBasedJobLock.java:162 | the path is no longer registered, and no other path changes |
| Locks.LockRegistry.EnsureCuratorFrameworkExists | gobblin-runtime/src/main/java/gobblin/runtime/locks/ZookeeperBasedJobLock.java:166-217 | the process's framework and reaper become what EnsureShared gives; the listeners do not change |
| Locks.LockRegistry.OnConnectionStateChanged | gobblin-runtime/src/main/java/gobblin/runtime/locks/ZookeeperBasedJobLock.java:179-196 | on LOST or SUSPENDED, onLost is called once for every registered path, in registration order; on any other state nothing is called |
| Locks.ZookeeperBasedJobLock.constructor | gobblin-runtime/src/main/java/gobblin/runtime/locks/ZookeeperBasedJobLock.java:69-71 | a new lock has no path and no mutex |
| Locks.ZookeeperBasedJobLock.Initialize | gobblin-runtime/src/main/java/gobblin/runtime/locks/ZookeeperBasedJobLock.java:81-89 | the result is InitializeOutcome; step by step: timeout, then path, then the listener registered only if the path has none, then the shared state, then a fresh unheld mutex on the path |
| Locks.ZookeeperBasedJobLock.Lock | gobblin-runtime/src/main/java/gobblin/runtime/locks/ZookeeperBasedJobLock.java:97-103 | takes the free node; waits while any mutex holds it; a connection failure becomes a JobLockException naming the lock path; before initialize the NullPointerException is caught and wrapped the same way, with the path printed as "null" when it is unset |
| Locks.ZookeeperBasedJobLock.TryLock | gobblin-runtime/src/main/java/gobblin/runtime/locks/ZookeeperBasedJobLock.java:129-135 | true and the node is taken when it is free; false when it is held; a connection failure becomes a JobLockException naming the lock path; before initialize the NullPointerException is wrapped in the same JobLockException, with the path printed as "null" when it is unset |
| Locks.ZookeeperBasedJobLock.Unlock | gobblin-runtime/src/main/java/gobblin/runtime/locks/ZookeeperBasedJobLock.java:111-119 | does nothing when not held; otherwise releases; a release failure becomes a JobLockException naming the lock path |
| Locks.ZookeeperBasedJobLock.IsLocked | gobblin-runtime/src/main/java/gobblin/runtime/locks/ZookeeperBasedJobLock.java:144-146 | the mutex's held-in-this-process flag |
| Locks.ZookeeperBasedJobLock.Close | gobblin-runtime/src/main/java/gobblin/runtime/locks/ZookeeperBasedJobLock.java:156-164 | unlocks and always deregisters the lock path; an unlock failure comes out wrapped in an IOException |
| Locks.ExclusionAcrossProcesses | gobblin-runtime/src/main/java/gobblin/runtime/locks/ZookeeperBasedJobLock.java:97-135 | while one process holds a job's lock, another's tryLock is false; after unlock it is true |
| Locks.LossReachesEveryLock | gobblin-runtime/src/main/java/gobblin/runtime/locks/ZookeeperBasedJobLock.java:179-196 | with two jobs locked in one process, a lost connection calls each listener once, and a reconnection calls none |
| Locks.SameJobTwiceInOneProcess | gobblin-runtime/src/main/java/gobblin/runtime/locks/ZookeeperBasedJobLock.java:81-89 | a second lock of the same job keeps the first listener and reuses the shared framework |
| Locks.ReaperStartRetried | gobblin-runtime/src/main/java/gobblin/runtime/locks/ZookeeperBasedJobLock.java:201-215 | a first initialize whose reaper start fails still succeeds and leaves the reaper unset; a later initialize, once the start succeeds, sets it |
| Locks.CloseAfterConnectionLoss | gobblin-runtime/src/main/java/gobblin/runtime/locks/ZookeeperBasedJobLock.java:156-164 | closing a held lock after connection loss gives IOException(JobLockException("Failed to release lock /locks/job", ...)) and still deregisters |
| LockFactory.ForName | gobblin-runtime/src/main/java/gobblin/runtime/locks/JobLockFactory.java:43-45 | a class is found exactly for the two JobLock class names |
| LockFactory.SelectionFallsBack | gobblin-runtime/src/main/java/gobblin/runtime/locks/JobLockFactory.java:41-51 | the ZooKeeper lock is chosen exactly when job.lock.type names its class; an absent key or an unknown name gives FileBasedJobLock |
| LockFactory.GetJobLock | gobblin-runtime/src/main/java/gobblin/runtime/locks/JobLockFactory.java:38-54 | a fresh lock of the selected class, initialised once with the given properties and listener, and only an initialisation failure is returned as an error. A file-based lock records that one call and the registry is untouched. For the ZooKeeper lock, once the timeout and the path are read, the listener is registered under the path unless one is there, and the shared state becomes what EnsureShared gives, whether or not initialisation then fails. A successful lock carries the timeout, the path and an unheld mutex on that path |
| Copy.AncestorEntriesMeaning | gobblin-data-management/src/main/java/gobblin/data/management/copy/CopyableFile.java:222-249 | the entries exist exactly when every ancestor's status can be read; then there is one per ancestor, deepest first to the root, each under the preserve and target-group rule |
| Copy.ReplicatedKeepsAll | gobblin-data-management/src/main/java/gobblin/data/management/copy/CopyableFile.java:184-198 | preserving owner, group and permission copies them unchanged |
| Copy.ReplicatedKeepsNothing | gobblin-data-management/src/main/java/gobblin/data/management/copy/CopyableFile.java:184-198 | preserving nothing leaves a null owner, a null permission and the target group |
| Copy.ChecksumOf | gobblin-data-management/src/main/java/gobblin/data/management/copy/CopyableFile.java:202-205 | reading the checksum fails exactly when the file system throws; a null checksum becomes the empty byte array |
| Copy.TimestampOrDefault | gobblin-data-management/src/main/java/gobblin/data/management/copy/CopyableFile.java:210-215 | a non-zero timestamp is kept; a zero one becomes the modification time |
| Copy.Builder.FromOriginAndDestination | gobblin-data-management/src/main/java/gobblin/data/management/copy/CopyableFile.java:128-131 | fromOriginAndDestination sets the origin, the destination, the configuration and its preserve flags, and nothing else |
| Copy.Builder.ReplicateOwnerAndPermission | gobblin-data-management/src/main/java/gobblin/data/management/copy/CopyableFile.java:222-254 | the loop's result is AncestorEntries of the origin path |
| Copy.Builder.FillDestinationOwnerAndPermission | gobblin-data-management/src/main/java/gobblin/data/management/copy/CopyableFile.java:184-198 | an unset destination owner and permission becomes the origin's under the preserve and target-group rule; a set one is kept |
| Copy.Builder.FillAncestorsOwnerAndPermission | gobblin-data-management/src/main/java/gobblin/data/management/copy/CopyableFile.java:199-201 | unset ancestor entries become AncestorEntries, or its exception is thrown; set ones are kept |
| Copy.Builder.FillChecksum | gobblin-data-management/src/main/java/gobblin/data/management/copy/CopyableFile.java:202-205 | an unset checksum becomes the origin's, or its exception is thrown; a set one is kept |
| Copy.Builder.FillFileSetAndTimestamps | gobblin-data-management/src/main/java/gobblin/data/management/copy/CopyableFile.java:206-215 | a null file set becomes ""; a zero timestamp becomes the modification time; set values are kept |
| Copy.Builder.Build | gobblin-data-management/src/main/java/gobblin/data/management/copy/CopyableFile.java:178-220 | a relative destination throws and changes nothing; otherwise the fields are filled in source order, with set fields passed through; the result carries them, and its getFileStatus is the origin |

## Left out

- Null arguments: null names, states and state collections (`checkNotNull`) are not represented. Empty names are modelled. Nullable ids and builder fields are `Option`s.
- The state class, its reflective `newInstance` and the `InstantiationException` wrapped as an IOException: states are values, and a record's state is the state read.
- SequenceFile encoding, BLOCK compression, `DefaultCodec` and `Closer`: a table is a sequence of `(key, state)` records.
- `storeRootDir` and `Path` joining in the state store: a store is addressed by its name.
- The store listing order: a directory carries its listing order (files in creation order); the latest-table rule does not depend on it.
- `FS_SCHEMES_NON_ATOMIC` and the body of `HadoopUtils.renamePath` are not part of this model. The scheme set is a constructor parameter. A rename that succeeds replaces the destination and removes the source; a failing one changes nothing.
- Reader I/O failures are not modelled; only writer, mkdirs, createNewFile and rename failures are.
- StateStoreSpec.TmpFileCanBeCurrent: with an empty prefix the latest-table filter admits `_tmp_` files, as the code does. The model keeps this behaviour and shows it happening; it is not corrected.
- Curator internals are not modelled: `InterProcessSemaphoreMutex`, `ChildReaper`, `ExponentialBackoffRetry`, session timing and reconnection. The mutex is a single-holder lease on a node map.
- Locks.SemaphoreMutex.Acquire: a blocking acquire of a held node is reported as `Waiting` with the state unchanged. Calls run one after another, so the waiting call never completes.
- Locks.SemaphoreMutex.Release: with the connection lost, the release throws and leaves the node in place, while the mutex stops counting itself as the holder. Session expiry, which would remove the node, is not modelled.
- The `ConcurrentMap` and the `synchronized` method: each call runs to completion before the next starts.
- The iteration order of the listener registry: `lockEventListeners` is a `ConcurrentHashMap`, whose iteration order is unspecified. The model fixes it as registration order (`LockRegistry.paths`). What is proved, one `onLost` call per registered listener, holds for any order.
- JavaLang.ParseDecimal: `Integer.parseInt` and `Long.parseLong` accept any Unicode decimal digit (`Character.digit`). The model accepts only ASCII '0'-'9', so, for example, Arabic-Indic digits that Java reads as 30 are a NumberFormatException in getInt, getLong and getMilliseconds.
- JavaLang.CompareTo: Java's `String.compareTo` compares UTF-16 code units; the model compares Unicode scalar values. The two disagree between a supplementary character and one in U+E000-U+FFFF, so for such names the latest-table choice of getLatestStateFilePath could differ.
- JavaLang.EqualsIgnoreCase: folds ASCII letters only, where Java's `equalsIgnoreCase` folds every case pair. For example, Java finds the Kelvin sign U+212A equal to "k" ignoring case, and the model does not. The only string the core compares this way is the ASCII constant "current".
- The connect string is passed into the framework settings unchecked; Curator's validation of a null connect string is not modelled. The lock scenarios all configure one.
- A null listener (rejected by `ConcurrentMap.putIfAbsent`) is not modelled.
- `ConfigurationKeys` is not part of this model: `job.name` and `job.lock.type` are the assumed values of `JOB_NAME_KEY` and `JOB_LOCK_TYPE`.
- The body of `FileBasedJobLock` is not part of this model: its `initialize` records its arguments and succeeds.
- The `ClassCastException` for a loaded class that is not a JobLock, and classes other than the two JobLock implementations, are not modelled.
- Copy.Builder.Build requires an absolute origin path: for a relative one, the ancestor loop would never end, because the parent of "." is ".". Qualified statuses from a file system are absolute.
- The owner-and-permission cache, `makeQualified` and `guid()`: the cache is a pure lookup of each directory's owner, group and permission, and a missing directory is the IOException coming from the `ExecutionException`.
- Copy.Builder.ReplicateOwnerAndPermission reads the group flag from the builder's `preserve` field and the owner and permission flags from its parameter. The only caller passes that same field, so the model uses one flag set.
- The ancestors' entries follow the origin path, as the code does, although the field's documentation speaks of the destination's ancestors.
- The deprecated `builder(...)` with dataset-root inference, and the Lombok setters (fields are assigned directly).
- `PreserveAttributes` is modelled as the set of the three options build() reads, by their names only.
- Logging throughout.
