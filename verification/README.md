# Verification of the Android native daemons

A Dafny model of five components of the Android frameworks/native repository, with proofs of what
they are for.  Each component is modelled as its source is written: objects and buffers that are
updated in place are classes and arrays, loops are loops with invariants, and each method is proved
against functions and predicates on values, about which the main theorems are then proved.
`dafny verify dfyconfig.toml` checks the whole project.

- **installd's cache collector and evictor** (`CacheTree`, `CacheDisk`, `CacheArena`, `CacheStore`,
  `CacheCollect`, `CacheEvict`, `CachePath`, `CacheBlind`, `CacheRoots`, `CacheDirs`, `FreeCache`).  A scan of
  /data finds exactly the cache directories of all packages, users and media directories; a walk over them fills an arena-backed directory tree with counts; eviction
  unlinks the oldest files first and removes emptied directories upwards.  Every file system call
  may fail.  For every pattern of failures the counts stay right and files are unlinked in the order
  of their listed times; while there is memory, no file that can be got at is skipped or lost in another
  way, so that where a file is gone and `unlink` works, every older one is gone.  Without failures
  `free_cache` gives up only when the cache directories are empty.
- **The binder_io codec, the command parser and the service manager** (`BinderIo`,
  `BinderRoundTrip`, `BinderWire`, `BinderParse`, `ServiceRegistry`, `ServiceRuns`, `ServiceDeaths`,
  `ServiceManager`, `ServiceClient`).  Messages survive the kernel if and only if their items are faithful;
  a buffer of commands is the fold of the handlers over it; in every run of adds, overrides and deaths the
  strong references are balanced, each death link names the entry that it was made for, and the linked list
  implements a map from names to services.
- **rawbu backup and restore** (`RawBytes`, `RawFormat`, `RawLayout`, `RawTree`, `RawPaths`, `RawBackup`,
  `RawWipe`, `RawRestore`, `RawRecovery`, `RawRoundTrip`, `RawLosses`).  A backup holds exactly the files and
  directories that belong in it, byte by byte in its format.  A backup restored is the tree that was backed up, but
  for bytes lost when files are closed, together with what `wipe` leaves; every truncated backup is
  rejected; and without outside failures a restore succeeds if and only if nothing that `wipe` leaves
  is in the way.
- **installd's layout migration** (`MigrationDisk`, `Migration`, `MigrationResume`,
  `MigrationResult`, `MigrationCrash`, `MigrationEnds`).  Atomic steps with a crash allowed between any two.
  Every upgrade puts each media file, obb file and certificate where the new layout has it.  Media files are conserved
  in every run that does not rename one file onto another; a crash does not show in the result if and
  only if it did not, at version 0, come after media.tmp was renamed to media/0.
- **installd's line reader and path builders** (`LineReader`, `PathBuilders`).  What a sliding buffer
  makes of a file, whatever sizes the reads have; and paths that fit their buffers and can be told
  apart.

Several properties are false of the code as one would first state them, and are stated here with the
condition under which they hold and with an input on which they fail:

- Eviction may unlink more than ten files after there is enough space, when `statfs` fails meanwhile.
  `CacheEvict.ClearCacheFiles` gives the bound for every pattern of failures, and
  `CacheBlind.TwelveAreUnlinked` is an example.
- A migration from version 0 is not safe to repeat.  `MigrationCrash.CrashesDoNotShow` gives the exact
  condition, and `MigrationEnds.LateCrash` two complete runs from one disk of which the one that was
  restarted late nests the media twice.
- A migration can lose a file where it renames one regular file to another.  `Migration.FilesKept` shows
  that files are lost only so, `Migration.MediaConserved` which disks that can happen on while
  `access` works, and `Migration.FileLost` and `Migration.ObbLost` are such runs.
- A restore that returns 0 can leave truncated files, because the result of closing them is not looked
  at.  `RawRoundTrip.ContentsIff` says exactly when, and `RawLosses.TruncatedFile` is an example.
- A restore that returns 0 can have restored nothing, because a flag that cannot be read is taken for 0.
  `RawRoundTrip.HeardAsSaved` says exactly when, and `RawLosses.UnreadFlag` is an example.
- A restored directory is not always a directory: where something else stood that could not be
  removed, `mkdir` reports that the path exists, and the record is taken as done.
  `RawRoundTrip.RoundTrip` says exactly when, and `RawLosses.FileForDirectory` is an example.
- `movefiles` does not process every line of a file whose lines are short: a newline on the last
  byte of the full buffer leaves no room to read on, and the loop takes that for the end of the file.
  `LineReader.AllReadFully` and `LineReader.AlwaysAllRead` say exactly when, and
  `LineReader.SecondLineLost` is an example.

Where the environment decides, it is a parameter: whether a call fails (`faulty`, `statfs`, `stuck`,
`tight`, `reach`, `short`), the sizes of reads, SELinux decisions, the success of `malloc`, directory listings, the
user id of a caller.  The ABI is the 64-bit one.

## Model

| member | source | states |
|---|---|---|
| `CacheTree.AliveAbove` | cmds/installd/utils.c:555-618 | a directory that is still there, or still has something counted in it, keeps the count of every directory above it positive |
| `CacheTree.NothingPendingBelow` | cmds/installd/utils.c:801-830 | once a directory's `childCount` is zero, no unvisited file lies anywhere below it |
| `CacheTree.PendingBelow` | cmds/installd/utils.c:852-859 | below every undeleted directory there is one with an unvisited file in it, or an undeleted empty one |
| `CacheTree.RemovedKeepsInv` | cmds/installd/utils.c:818-819 | deleting an empty directory keeps "count = undeleted children + unvisited files" for all directories, and its parent is not deleted yet |
| `CacheTree.VisitedKeepsInv` | cmds/installd/utils.c:869-875 | visiting a file keeps the same invariant, and the directory of an unvisited file is never deleted |
| `CacheTree.PrefixIsAncestor` | cmds/installd/utils.c:784-799 | path text that starts with a directory's path belongs to a directory below it: text order and tree order agree |
| `CacheTree.FilePrefixIsAncestor` | cmds/installd/utils.c:784-799 | a file's path starts with a directory's path if and only if the file lies below that directory |
| `CacheTree.FilePathsDiffer` | cmds/installd/utils.c:869-870 | different collected files have different paths |
| `CacheTree.FilesInPermutation` | cmds/installd/utils.c:849-850 | sorting changes no directory's number of files |
| `CacheDisk.Disk.Unlink` | cmds/installd/utils.c:869-873 | removes the path or nothing; without outside failures it removes what is there |
| `CacheDisk.Disk.Rmdir` | cmds/installd/utils.c:806-810 | removes only a directory with nothing in it; without outside failures it does so |
| `CacheDisk.Disk.DeleteDirContents` | cmds/installd/utils.c:222-304 | removes only the named subtree, all of it or some of it, and, where the directory is there, reports success exactly when nothing of it is left |
| `CacheDisk.Disk.DataDiskFree` | cmds/installd/utils.c:475-484 | the free space, or -1 exactly when this call of `statfs` fails |
| `CacheEvict.UnvisitedStays` | cmds/installd/utils.c:801-880 | a collected file that has not been visited is never among the nodes that eviction removes |
| `CacheEvict.EmptyDirectory` | cmds/installd/utils.c:801-830 | with collection and disk in step, all that is left in a directory with count zero are entries of its own that were not collected: no directory, and no unvisited file |
| `CacheEvict.AfterRemoval` | cmds/installd/utils.c:801-824 | removing an empty directory with its hidden entries keeps collection and disk in step and leaves all directories but its parent settled |
| `CacheEvict.AfterUnlink` | cmds/installd/utils.c:869-875 | unlinking the next file keeps the counts right and collection and disk in step |
| `CacheEvict.CascadeFails` | cmds/installd/utils.c:806-817 | when the removal of a directory fails, nothing but its own subtree was touched; without outside failures it cannot fail on an empty directory |
| `CacheEvict.CascadeStops` | cmds/installd/utils.c:818-822 | when the parent still has something in it, the cascade ends there with the invariant kept |
| `CacheEvict.CascadeGoesUp` | cmds/installd/utils.c:818-822 | a cascade that goes on to the parent composes: what is lost by both steps may go, and every settled directory stays settled |
| `CacheEvict.CascadeAtRoot` | cmds/installd/utils.c:823-829 | a root stays and loses at most its hidden entries |
| `CacheEvict.DeleteCacheDir` | cmds/installd/utils.c:801-830 | entered only for undeleted directories with count zero, with every path built in the buffer of PATH_MAX characters; ends because parents have smaller indices, keeps the invariant, removes nothing above or beside an unvisited file, and leaves no empty non-root directory behind when nothing fails |
| `CacheEvict.RemoveDir` | cmds/installd/utils.c:804-817 | takes only the directory itself, unless it is a root, and what lies in it if it has hidden entries; without outside failures it fails only on a directory without hidden entries that is not empty |
| `CacheEvict.SortByModTime` | cmds/installd/utils.c:832-850 | the files in order of modification time, and the same files |
| `CacheEvict.SortingKeepsInv` | cmds/installd/utils.c:849-850 | sorting keeps the invariant of the collection |
| `CacheEvict.CleanEmptyDirs` | cmds/installd/utils.c:853-858 | the first pass: invariant kept, only what may go is gone, and without failures every directory is settled afterwards |
| `CacheEvict.CheckSpace` | cmds/installd/utils.c:862-868 | the free space is looked at before every eleventh file, and the loop ends there exactly if it exceeds the target; a look that fails counts as -1 |
| `CacheEvict.VisitFile` | cmds/installd/utils.c:869-878 | one turn of the second loop: the counts stay right, nothing unvisited is lost, and without failures collection and disk stay in step |
| `CacheEvict.TrimFiles` | cmds/installd/utils.c:860-879 | the whole second loop, for every pattern of failing calls: it unlinks a prefix of the files, in their order; the free space is looked at before files 10, 21, 32 and so on and never else, and the loop ends early only after such a look that showed enough; a directory is marked deleted only when it is gone; and if free space never shrinks, then after it first exceeded the target at most ten files are unlinked, and eleven more for each look that has failed since |
| `CacheEvict.SettledHasFile` | cmds/installd/utils.c:852-858 | after the first pass, and ever after, every undeleted non-root directory has an unvisited file below it |
| `CacheEvict.EverythingGone` | cmds/installd/utils.c:852-879 | once all files are visited without failures, every non-root directory is deleted and nothing is left in the roots |
| `CacheEvict.ClearCacheFiles` | cmds/installd/utils.c:839-880 | for every collection and every pattern of failures: a prefix of the files is unlinked, oldest first, nothing newer than that prefix is lost, a directory loses what is in it besides only if it has hidden entries, counts right, a directory marked deleted only when it is gone, the early end, the number of looks and the overshoot bound of the second loop; and where no unlink, rmdir or recursive delete fails those files are gone, and a complete run empties the roots |
| `CacheBlind.TwelveAreUnlinked` | cmds/installd/utils.c:860-879 | on a disk with twelve files on which `statfs` fails every time and every other call works, all twelve files are removed, although there was enough space from the start |
| `CacheArena.RoundUp` | cmds/installd/utils.c:496 | the next multiple of four |
| `CacheArena.Arena.constructor` | cmds/installd/utils.c:486-490 | an arena without blocks |
| `CacheArena.Arena.Malloc` | cmds/installd/utils.c:494-534 | a new region of the rounded size, inside a listed block, off the link word and apart from all regions handed out before: of at most 262144 bytes right behind the last one of the current block of 524288 bytes or at the start of a fresh one, if larger in a block of its own; NULL only if `malloc` failed, and then nothing at all has changed |
| `CacheArena.Arena.AddBlock` | cmds/installd/utils.c:501-514 | a dedicated block goes second in the list, so the current block stays at its head and stays current |
| `CacheArena.Arena.Realloc` | cmds/installd/utils.c:536-544 | the new region starts with the bytes of the old one, and no region handed out before loses a byte |
| `CacheArena.Arena.Finish` | cmds/installd/utils.c:882-906 | frees every block that was ever handed out, each once |
| `CacheArena.Inserted` | cmds/installd/utils.c:507-527 | inserting a fresh block keeps "every block is listed once" and keeps all regions housed and disjoint |
| `CacheStore.AddedDirKeepsInv` | cmds/installd/utils.c:555-586 | collecting a directory keeps the count invariant |
| `CacheStore.AddedFileKeepsInv` | cmds/installd/utils.c:588-618 | collecting a file keeps the count invariant |
| `CacheStore.Store.constructor` | cmds/installd/utils.c:486-490 | an empty collection |
| `CacheStore.Store.GrowDirs` | cmds/installd/utils.c:565-575 | afterwards the directory array has room for one more (1000 at first, then twice what it had when it is full), in arena memory of sufficient size, with the pointer to each directory at its place; it fails only without memory |
| `CacheStore.Store.GrowFiles` | cmds/installd/utils.c:597-607 | the same for the file array |
| `CacheStore.Store.AddDir` | cmds/installd/utils.c:555-586 | the collection with one more directory counted by its parent, and a pointer to a region of its own for it in the next slot of the array; or NULL and an unchanged collection when memory is short |
| `CacheStore.Store.AddFile` | cmds/installd/utils.c:588-618 | the same for a file and its directory |
| `CacheStore.Regrown` | cmds/installd/utils.c:566-574 | moving one array to a new region keeps the slots of both arrays |
| `CacheStore.OtherWritten` | cmds/installd/utils.c:576-576 | writing a slot of one array leaves the slots of the other alone |
| `CacheCollect.CollectEntry` | cmds/installd/utils.c:638-728 | one entry of a directory, with every branch (unopenable, too long, hidden, not `stat`able, out of memory): all that is new hangs below that entry, agrees with the listing in path and time, and fits PATH_MAX; hidden entries are counted only in directories that have one; what is removed from disk lies in that entry and has too long a path or cannot be examined; and every visible file in it that can be got at and whose path fits is collected with its time unless memory is short |
| `CacheCollect.CollectDir` | cmds/installd/utils.c:620-731 | the recursive walk of a directory: the same, and without failures everything left on disk below it is accounted for by the collection |
| `CacheCollect.AttachDir` | cmds/installd/utils.c:555-586 | a new directory keeps siblings distinct and all older paths unchanged |
| `CacheCollect.AttachFile` | cmds/installd/utils.c:588-618 | a new file keeps names in a directory distinct |
| `CacheCollect.PathGrows` | cmds/installd/utils.c:784-799 | collecting more never changes the path of what was collected before |
| `CacheCollect.EntriesApart` | cmds/installd/utils.c:637-640 | the paths of two entries of one directory never overlap |
| `CacheCollect.FileAtUnique` | cmds/installd/utils.c:637-712 | a path is listed with one modification time only |
| `CacheCollect.UncollectedIsHidden` | cmds/installd/utils.c:685-726 | what is listed in a readable entry, fits and was not collected is a dot file, or neither a directory nor a regular file |
| `CachePath.CreateDirPath` | cmds/installd/utils.c:784-799 | where the path fits the buffer, writes exactly the directory's path, ended by a slash, and returns where it ends; it touches nothing beyond |
| `CachePath.CreateFilePath` | cmds/installd/utils.c:869-870 | the buffer holds exactly the file's path |
| `CacheRoots.LookupMediaDir` | cmds/installd/utils.c:425-473 | the loop settles on the entry that `Lookup` says: the one with the very name, or else the first one that is alike |
| `CacheRoots.LookupFinds` | cmds/installd/utils.c:425-473 | an entry with the very name is always found; one that differs only in case makes the lookup succeed where the directory can be read; and what is found differs at most in case |
| `CacheRoots.AddCacheFiles` | cmds/installd/utils.c:733-782 | the cache directories of all packages in a directory, in the order of its listing |
| `CacheRoots.FindRoots` | cmds/installd/commands.c:355-413 | the directories that `Roots` names: those of the primary user, of the other users and on external storage, each found by its own loop |
| `CacheRoots.RootsGood` | cmds/installd/commands.c:355-413 | on every device, what is found are directories called cache below /data, none of which lies in another, and a disk that agrees with the whole tree agrees with each of them |
| `CacheRoots.UserCacheFound` | cmds/installd/commands.c:361-385 | the cache directory of every package of every user but the primary one is found, by its full path |
| `CacheDirs.AlikeIs` | cmds/installd/utils.c:460-466 | names that `strcasecmp` takes for equal are of one length and differ only in the case of the letters A to Z |
| `CacheDirs.LookupIs` | cmds/installd/utils.c:425-473 | what the lookup finds is the entry with the very name or, where there is none and the directory can be read, the first whose name differs from it only in case |
| `CacheDirs.RootsAre` | cmds/installd/commands.c:355-413 | on every device, a directory is found if and only if it is the cache directory of a package in data/ (where that path fits 256 characters), of a package of a user in user/, or of a package in Android/data/ of a directory in media/ whose name starts with a digit |
| `CacheDirs.PrimaryCacheFound` | cmds/installd/commands.c:356-359 | the cache directory of every package of the primary user is found, by its full path |
| `CacheDirs.MediaCacheFound` | cmds/installd/commands.c:387-409 | so is that of every package in Android/data of every media directory of a user |
| `FreeCache.CollectRoots` | cmds/installd/utils.c:733-782 | after all cache directories that were found: everything collected lies in them, only what lies in them was removed, everything that can be collected or only counted is spared, files that can be got at and fit are collected unless memory is short; and without failures collection and disk agree |
| `FreeCache.WithinStep` | cmds/installd/utils.c:620-731 | collected files' paths fit PATH_MAX with their terminators, and collected directories' paths do but for the terminator |
| `FreeCache.RoomyUnlessLong` | cmds/installd/utils.c:784-799 | the evictor's path buffer is large enough for every collected path unless some directory's path, with its final slash, has PATH_MAX characters |
| `FreeCache.EvictedInRoots` | cmds/installd/utils.c:839-880 | what eviction may remove lies in the cache directories |
| `FreeCache.RootsEmptied` | cmds/installd/utils.c:823-829 | with all collected directories gone, no cache directory holds anything |
| `FreeCache.EvictRoots` | cmds/installd/commands.c:415-415 | eviction over collected roots removes only what lies in them; the files it unlinks are in the order of their listed times and, if everything was found, none is skipped and none is lost in another way; the overshoot bound; it stops only at a look that showed enough space or after every file; and where no unlink, rmdir or recursive delete fails it ends with enough space or with empty cache directories |
| `FreeCache.ListedTime` | cmds/installd/utils.c:733-782 | no file is listed twice with different times, in one cache directory or in two |
| `FreeCache.FirstSkipNone` | cmds/installd/utils.c:849-879 | a prefix of a sorted, complete collection has before each of its files every older file that can be got at |
| `FreeCache.NothingElseEvicted` | cmds/installd/utils.c:801-880 | of a complete collection, eviction takes besides the unlinked files only directories below which every file that can be got at has been unlinked, never one of the cache directories, and what lies in such a directory that has hidden entries |
| `FreeCache.OlderAreGone` | cmds/installd/utils.c:860-879 | if the unlinked files were in order with none skipped, no other file was lost and each unlink worked, then where a file is gone every older one is gone |
| `FreeCache.FreeCache` | cmds/installd/commands.c:338-419 | the cache directories are exactly those of the primary user, of the other users and on external storage; nothing is removed when there is enough space already or the first `statfs` fails; nothing outside the cache directories is ever removed; files are unlinked in the order of their listed times, whatever fails; unless memory is short, no older file that can be got at is skipped and none goes in another way, and besides only what has too long a path or cannot be examined goes, directories below which nothing is left to evict, and what lies in those that have hidden entries; so that without failing deletions every file older than one that is gone is gone; the overshoot bound over all unlinks and all failed looks but the last; too little space at the end means that every file that can be got at was unlinked; it returns 0 exactly when the last look showed enough space; where no other call fails it gives up only when every cache directory is empty or the last `statfs` failed; it can be killed only when memory is short, and overrun its path buffer only if some directory's path fills it |
| `BinderIo.Bio.constructor` | cmds/servicemanager/binder.c:415-432 | the offset table comes out of the same buffer, and too small a buffer starts in overflow |
| `BinderIo.Bio.FromTxn` | cmds/servicemanager/binder.c:406-413 | the reader sees exactly the delivered data and offsets |
| `BinderIo.Bio.Alloc` | cmds/servicemanager/binder.c:434-446 | space rounded up to words, or overflow and no change |
| `BinderIo.Bio.PutUint32` | cmds/servicemanager/binder.c:481-486 | the item is in the buffer after what was there, or overflow |
| `BinderIo.Bio.PutRef` | cmds/servicemanager/binder.c:502-518 | a nonzero handle takes an object and a table entry, a zero handle only an object; or overflow |
| `BinderIo.Bio.PutString16` | cmds/servicemanager/binder.c:520-544 | length, text and terminator; a missing or oversized string becomes the mark 0xffffffff; or overflow |
| `BinderIo.Bio.Get` | cmds/servicemanager/binder.c:575-589 | the next words, or overflow and nothing left |
| `BinderIo.Bio.GetUint32` | cmds/servicemanager/binder.c:591-595 | the word at the cursor, or 0 on overflow |
| `BinderIo.Bio.GetString16` | cmds/servicemanager/binder.c:597-606 | the text at the cursor with its terminator, or NULL on overflow |
| `BinderIo.Bio.GetObj` | cmds/servicemanager/binder.c:608-622 | an object exactly where the offset table has the cursor's place |
| `BinderIo.Bio.GetRef` | cmds/servicemanager/binder.c:624-636 | the handle of the object at the cursor, or 0 |
| `BinderIo.HoldsAppend` | cmds/servicemanager/binder.c:434-446 | putting one more item leaves all earlier items readable |
| `BinderRoundTrip.PutAll` | cmds/servicemanager/binder.c:434-544 | a sequence of puts overflows if and only if the items do not all fit; otherwise the buffer holds them all in order |
| `BinderRoundTrip.GetAll` | cmds/servicemanager/binder.c:575-636 | reading the kinds that were put returns the values and uses up the data if and only if every string is present and short and every handle is nonzero; otherwise it overflows |
| `BinderRoundTrip.HoldsAllSent` | cmds/servicemanager/binder.c:167-199 | cutting the buffer at the end of the data loses no item |
| `BinderRoundTrip.Transfer` | cmds/servicemanager/binder.c:406-636 | put, carry and get: sent if and only if there is room, and then read back unchanged if and only if all items are faithful |
| `BinderWire.AllHeldAreOnWire` | cmds/servicemanager/binder.c:481-544 | items put are in the buffer byte by byte as the protocol has them: words, texts with length, NUL and padding, and objects with type 0x73682a85, flags 0x17f, handle and no cookie, in the offset table if and only if the handle is not zero |
| `BinderWire.Send` | cmds/servicemanager/binder.c:415-544 | a message is sent if and only if it and its table fit the buffer, and then looks so |
| `BinderParse.ParseOne` | cmds/servicemanager/binder.c:207-281 | one turn: a well-formed command is consumed exactly and executed; the turn fails if and only if the command is unknown or a transaction is cut short |
| `BinderParse.Parse` | cmds/servicemanager/binder.c:201-284 | on every concatenation of well-formed commands all of it is consumed; the final state is the fold of the handler over the transactions and of the death callback over the dead-binder commands, in their order; the traffic is, for each transaction, the call and then the reply with the status that the handler returned in the state reached there, and for each dead binder its cookie; the result is that of the last reply or failure and `bio` has the first reply; something broken behind the commands gives -1 after the same effects |
| `BinderParse.ResultIsLastOutcome` | cmds/servicemanager/binder.c:201-284 | the result is the outcome of the last reply or failure |
| `BinderParse.ResultWithoutOutcome` | cmds/servicemanager/binder.c:201-284 | without a reply or failure the result is what it was, 1 at the start |
| `BinderParse.FilledByFirstReply` | cmds/servicemanager/binder.c:248-264 | `bio` is filled from the first reply |
| `BinderParse.FilledStays` | cmds/servicemanager/binder.c:248-264 | and from no other |
| `BinderParse.ExecLog` | cmds/servicemanager/binder.c:227-247 | a command keeps "each handler call is answered at once by the one reply that frees its buffer" |
| `BinderParse.HandlerCalls` | cmds/servicemanager/binder.c:227-247 | over a whole buffer the handler runs once per transaction, in order, each run answered |
| `BinderParse.ExecAllIs` | cmds/servicemanager/binder.c:201-284 | executing commands one by one reaches the state of the fold of the handler and the death callback, the cookie being low + 2^32 * high, with the traffic of that fold |
| `BinderParse.ReplyOf` | cmds/servicemanager/binder.c:227-247 | each transaction of a buffer has its call in the traffic and right behind it the reply, with the status of the handler in the state after the commands before it, for the buffer named by words 12 and 13 |
| `BinderParse.OutcomeIs` | cmds/servicemanager/binder.c:248-276 | the result is 0 after a last reply, -1 after a last failure, and 1 without either |
| `BinderParse.FilledIs` | cmds/servicemanager/binder.c:248-264 | `bio` is filled with the first reply and no other, if there is one and it is wanted |
| `ServiceRegistry.Find` | cmds/servicemanager/service_manager.c:140-151 | the first entry with the name, or -1 when there is none |
| `ServiceRegistry.DiedKeepsValid` | cmds/servicemanager/service_manager.c:153-162 | a death, even a late or repeated one, keeps names distinct and references balanced |
| `ServiceRegistry.AddedKeepsValid` | cmds/servicemanager/service_manager.c:196-244 | so does an add, whether it is refused, new, or overrides |
| `ServiceRuns.RunIsValid` | cmds/servicemanager/service_manager.c:153-244 | in every run, acquires minus releases of each handle is the number of entries that hold it, and names stay distinct |
| `ServiceRuns.StepRefines` | cmds/servicemanager/service_manager.c:140-244 | each event on the list is an event on the map from names to services |
| `ServiceRuns.RunRefines` | cmds/servicemanager/service_manager.c:140-244 | the linked list implements the map in every run, order included |
| `ServiceRuns.LookupIsCurrent` | cmds/servicemanager/service_manager.c:170-194 | a permitted lookup returns the handle of the last accepted add of the name, or 0 if a death has hit its entry since |
| `ServiceRuns.IsolatedLookup` | cmds/servicemanager/service_manager.c:170-194 | an isolated caller gets the current handle if and only if the first accepted add of the name allowed isolated processes, and 0 otherwise |
| `ServiceRuns.FlagIsFirst` | cmds/servicemanager/service_manager.c:196-244 | in every run a name is registered if and only if an add of it was accepted, and the stored permission is that of the first such add |
| `ServiceRuns.LookupByUid` | cmds/servicemanager/service_manager.c:170-194 | for a user id of app number `app`, a lookup gives the current handle, or 0 if `app` is from 99000 to 99999 and the first accepted add of the name did not allow isolated processes |
| `ServiceDeaths.AddLinks` | cmds/servicemanager/service_manager.c:196-244 | every add of a name of 1 to 127 units with a handle, permission and (for a new name) memory is carried out: the name then has the handle, and the log ends with the release of the old handle, if there was one, the acquire of the new one, and one death link, which names the entry of that name; every other add changes nothing |
| `ServiceDeaths.LinksNameTheirEntry` | cmds/servicemanager/service_manager.c:153-244 | in every run, each death link in the log was written by an add of some name with the linked handle, and the entry it names is still called so |
| `ServiceDeaths.EachAddLinks` | cmds/servicemanager/service_manager.c:196-244 | in every run, each add that was carried out has written its death link, with its handle |
| `ServiceDeaths.DeathClears` | cmds/servicemanager/service_manager.c:153-194 | after every run, the death of an entry makes the lookup of its name 0, whoever asks, and changes that of no other name |
| `ServiceDeaths.LinkedDeath` | cmds/servicemanager/service_manager.c:153-244 | after every run, a death reported by a link of the log clears the name whose add has written that link, and no other |
| `ServiceManager.Manager.FindSvc` | cmds/servicemanager/service_manager.c:140-151 | the loop finds the first entry with the name |
| `ServiceManager.Manager.SvcinfoDeath` | cmds/servicemanager/service_manager.c:153-162 | the new list and the commands written |
| `ServiceManager.Manager.DoFindService` | cmds/servicemanager/service_manager.c:170-194 | the handle, or 0 |
| `ServiceManager.Manager.DoAddService` | cmds/servicemanager/service_manager.c:196-244 | the new list, the commands written, and whether it succeeded, as `Added` has them, about which `ServiceDeaths.AddLinks` says what they mean |
| `ServiceManager.Manager.EnforceInterface` | cmds/servicemanager/service_manager.c:271-281 | passes every message with the right interface name and leaves its arguments to be read |
| `ServiceManager.InterfaceName` | cmds/servicemanager/service_manager.c:164-168 | the interface name that is compared is "android.os.IServiceManager" |
| `ServiceManager.Manager.HandleLookup` | cmds/servicemanager/service_manager.c:292-302 | puts the reference that the registry has, or the word 0 |
| `ServiceManager.Manager.HandleAdd` | cmds/servicemanager/service_manager.c:304-314 | registers what the message carries; references stay balanced whatever arrives |
| `ServiceManager.Manager.HandleList` | cmds/servicemanager/service_manager.c:316-332 | puts the name of service number n, newest first, or fails when there is none |
| `ServiceManager.Manager.Handle` | cmds/servicemanager/service_manager.c:246-340 | every well-formed request gets its proper reply, only ADD changes the registry, and no message at all unbalances it |
| `ServiceClient.ListOne` | cmds/servicemanager/service_manager.c:316-332 | through both message buffers, a name without NUL is read back if and only if it has at most 109 units |
| `ServiceClient.ListAll` | cmds/servicemanager/service_manager.c:316-332 | LIST with 0, 1, 2, ... gives each registered name once, newest first, and then an error |
| `ServiceClient.AddedIsFound` | cmds/servicemanager/service_manager.c:170-244 | what was just added is what a lookup finds |
| `ServiceClient.LookUp` | cmds/servicemanager/service_manager.c:291-302 | a lookup from end to end returns what the registry has |
| `ServiceClient.RegisterAndLookUp` | cmds/servicemanager/service_manager.c:291-314 | a registration and a lookup from end to end find the registered handle |
| `RawBytes.Int32RoundTrip` | cmds/rawbu/backup.cpp:174-183 | a 32-bit value is read back as written |
| `RawBytes.Int64RoundTrip` | cmds/rawbu/backup.cpp:185-194 | a 64-bit value is read back as written |
| `RawFormat.TakeRecordFront` | cmds/rawbu/backup.cpp:438-501 | a written record is read back with its mode masked, leaving what follows |
| `RawFormat.StreamRoundTrip` | cmds/rawbu/backup.cpp:236-254 | a whole written stream is read back: flag, records in order, nothing left |
| `RawFormat.TakeRecordsMore` | cmds/rawbu/backup.cpp:438-501 | a parse that succeeds is not changed by what follows it |
| `RawFormat.TruncationRejected` | cmds/rawbu/backup.cpp:416-501 | every strict prefix of a written stream is rejected, wherever the cut falls |
| `RawLayout.RecordIs` | cmds/rawbu/backup.cpp:174-254 | the bytes of a record: 1 or 2 for its kind, the length of its path, the path, owner, group and mode, three times in nanoseconds, and for a file its size and contents, each number at its place with its lowest byte first |
| `RawLayout.StreamIs` | cmds/rawbu/backup.cpp:373-414 | the bytes of a backup: version 0xffff0002, the flag, the records one after another, and a zero word |
| `RawLayout.OnlyVersions` | cmds/rawbu/backup.cpp:514-524 | only streams with version 0xffff0001 or 0xffff0002 are accepted |
| `RawLayout.OldStreamIs` | cmds/rawbu/backup.cpp:514-524 | a stream of version 0xffff0001 is one without a flag, for which the all option is off |
| `RawTree.ResolveRender` | cmds/rawbu/backup.cpp:256-300 | the text of a path resolves to the path |
| `RawTree.ItemsAreSaved` | cmds/rawbu/backup.cpp:256-371 | the saved items are exactly the nodes that `Saves` has, of which nothing is skipped on the way down |
| `RawPaths.ItemsAreWanted` | cmds/rawbu/backup.cpp:256-371 | the saved items are exactly the files and directories that are found by walking names from /data, none of which is lost+found, where without the all option no start of the path is /data/misc, /data/system/batterystats.bin, /data/system/location or /data/dalvik-cache; each with its kind, status and contents |
| `RawPaths.EncodedIsBackup` | cmds/rawbu/backup.cpp:236-371 | so a backup is the encoding of one record for each of those nodes, and of no other |
| `RawPaths.RecordsDistinct` | cmds/rawbu/backup.cpp:256-371 | no two records have the same path |
| `RawTree.ItemsDistinct` | cmds/rawbu/backup.cpp:256-371 | no path is saved twice |
| `RawTree.ItemsParentsFirst` | cmds/rawbu/backup.cpp:256-371 | a directory is saved before everything in it |
| `RawBackup.CopyFile` | cmds/rawbu/backup.cpp:196-234 | copies exactly the announced bytes, in pieces of any size the reads give, or fails |
| `RawBackup.Writer.Flush` | cmds/rawbu/backup.cpp:397-408 | success means that everything written has reached the file |
| `RawBackup.Writer.Close` | cmds/rawbu/backup.cpp:581-582 | the file holds a prefix of what was written, and the caller does not learn whether it is all |
| `RawBackup.Writer.WriteHeader` | cmds/rawbu/backup.cpp:236-254 | the fields of a header in order, or failure |
| `RawBackup.BackupDir` | cmds/rawbu/backup.cpp:256-371 | the encodings of all items of the directory, in order; any failing call ends it |
| `RawBackup.BackupData` | cmds/rawbu/backup.cpp:373-414 | success means that the file holds a record for each file and directory that belongs in the backup, by its path, and for no other; it fails only if a call failed or bytes got lost on the way to the file |
| `RawWipe.WipeEntry` | cmds/rawbu/backup.cpp:87-166 | one entry, with every branch (not to be touched, not `lstat`able, a directory, anything else, the backup file): what is left of it is exactly what survives |
| `RawWipe.Wipe` | cmds/rawbu/backup.cpp:65-172 | below the directory there remains exactly what lies at, in or above something that is not touched, kept, spared as the backup file, or cannot be examined or removed; the rest is unchanged |
| `RawWipe.DirectorySurvives` | cmds/rawbu/backup.cpp:131-148 | an emptied directory stays exactly if something in it stays or it is itself kept |
| `RawWipe.WipedWellFormed` | cmds/rawbu/backup.cpp:65-172 | what is left is still a tree |
| `RawRecovery.RemainsIs` | cmds/rawbu/backup.cpp:42-63 | what survives a wipe, by path: /data, what is in lost+found, without the all option what is private, the dalvik-cache directory and with the all option the private directories, what cannot be removed, and the directories above all these |
| `RawRestore.ReadHeader` | cmds/rawbu/backup.cpp:438-501 | accepts only the headers of the format, whatever reads come up short, and all of them if none does |
| `RawRestore.WriteFile` | cmds/rawbu/backup.cpp:573-587 | a regular file, or none, is replaced by a file with the prefix of the record's bytes that reached the disk; the loss of the rest goes unnoticed, a short read of the backup does not |
| `RawRestore.ApplyAllShows` | cmds/rawbu/backup.cpp:536-621 | after records with distinct paths, each node shows its record and nothing else has changed |
| `RawRestore.RestoreRecord` | cmds/rawbu/backup.cpp:536-621 | a turn consumes one record and applies it, as far as its bytes reach the disk; without outside failures it fails only if there is no such record or it does not fit; where its path leads through something that is neither a file nor a directory the outcome is open |
| `RawRestore.RestoreRecords` | cmds/rawbu/backup.cpp:536-621 | the loop reads to the end marker and applies every record, as far as it reaches the disk; without outside failures it fails only if that is impossible or the outcome is open |
| `RawRestore.SameOutcome` | cmds/rawbu/backup.cpp:573-587 | whether all records can be applied does not depend on how much of them reaches the disk |
| `RawRestore.ReadPreamble` | cmds/rawbu/backup.cpp:514-524 | version and flag, with short reads taken as 0: a flag that is not read is taken for 0 without notice, and reading goes on at its unread bytes |
| `RawRestore.RestoreData` | cmds/rawbu/backup.cpp:503-629 | whatever reads come up short, 0 means that the device is the wiped one with all records applied that were heard up to the end marker, as far as they reached the disk; where no other call fails -1 means that this cannot be done; both where no record leads through something that is neither a file nor a directory |
| `RawRestore.HeardIsSaid` | cmds/rawbu/backup.cpp:514-524 | if the flag is read, what is heard is what the stream says |
| `RawRoundTrip.RoundTrip` | cmds/rawbu/backup.cpp:65-629 | after records were applied, every node that nothing skips has its kind, owner, permissions, file times and the contents that reached the disk (a directory is a directory unless something else stood there that could not be removed), and everything else is what `wipe` left, unchanged: what cannot be removed or lies at, in or above lost+found or a skip-listed path |
| `RawRoundTrip.ContentsIff` | cmds/rawbu/backup.cpp:503-629 | all files have their contents if and only if no close of a file lost bytes |
| `RawRoundTrip.SucceedsIff` | cmds/rawbu/backup.cpp:536-621 | the records of a tree can all be applied if and only if `wipe` left nothing in the way of any of them |
| `RawRoundTrip.RecoveredIsBack` | cmds/rawbu/backup.cpp:503-629 | after a restore every node that belongs in the backup is back at its path, with owner, the permission bits of its mode, times and the contents that reached the disk; where no such node is, the device holds what survives a wipe, unchanged |
| `RawRoundTrip.BlockedIsObstructed` | cmds/rawbu/backup.cpp:536-621 | an item cannot be applied if and only if something that survives is in the way of its node: what is not a file where a file belongs, or what is not a directory where its directory should be |
| `RawRoundTrip.BackupThenRestore` | cmds/rawbu/backup.cpp:373-629 | backup and restore from end to end, by path: a backup that succeeds holds each file and directory that belongs in it and nothing else; unless something that is neither a file nor a directory survives at or above a path of one: if the flag was read, 0 means that each of them is back and that everything else is what survives a wipe, with all contents if and only if no close lost bytes; where no call fails it is 0 if and only if nothing that survives is in the way of one; if the flag was not read, 0 after a backup without the all option means a wiped device |
| `RawRoundTrip.HeardAsSaved` | cmds/rawbu/backup.cpp:514-524 | what a restore that gets to the end marker has heard of a backup is what was saved, if and only if the flag was read, or the backup was made without the all option and is empty |
| `RawRoundTrip.NothingHeard` | cmds/rawbu/backup.cpp:514-545 | with the flag unread, a backup made without the all option is taken for an empty one or rejected |
| `RawRoundTrip.CutHeard` | cmds/rawbu/backup.cpp:514-545 | and so is every cut one |
| `RawLosses.TruncatedFile` | cmds/rawbu/backup.cpp:573-587 | a restore on which no call fails, that returns 0 and leaves an empty file where one byte was saved |
| `RawLosses.FileForDirectory` | cmds/rawbu/backup.cpp:548-561 | a restore that returns 0 and leaves a file where a directory was saved |
| `RawLosses.UnreadFlag` | cmds/rawbu/backup.cpp:514-545 | a restore on which no call on the device fails, that returns 0 with nothing brought back because the flag was not read |
| `RawRoundTrip.RestoreCut` | cmds/rawbu/backup.cpp:503-629 | restoring a backup cut short anywhere returns -1 if the flag is read; otherwise, for one made without the all option, 0 means a wiped device |
| `MigrationDisk.RenameAt` | cmds/installd/installd.c:433-511 | what is where after a rename |
| `MigrationDisk.RenameKeepsFiles` | cmds/installd/installd.c:433-511 | a rename adds no file, and loses one if and only if it is made from a regular file to a regular file |
| `Migration.StepFiles` | cmds/installd/installd.c:378-599 | a step of any kind, with failing calls of `access` and others, adds no media file, and loses one if and only if it renames a regular file to a regular file |
| `Migration.StepDanger` | cmds/installd/installd.c:420-522 | where `access` does not fail, only the rename of media.tmp to media/0 can do that, exactly if both were regular files at the start |
| `Migration.MediaConserved` | cmds/installd/installd.c:378-599 | in every run with any crashes, restarts and failures but those of `access`, from every version, media and media.tmp together keep the same files, each in as many places, if and only if it is not so that both media.tmp and media/0 were regular files at the start and the run has renamed one to the other |
| `Migration.FilesKept` | cmds/installd/installd.c:378-599 | in every run with any crashes, restarts and failures, of `access` too, the media files are kept, each in as many places, if and only if no rename was made from a regular file to a regular file |
| `Migration.FileLost` | cmds/installd/installd.c:420-460 | a run from a concrete disk that loses a file |
| `Migration.ObbLost` | cmds/installd/installd.c:505-511 | a run at version 1 that loses media/obb after a failing `access` |
| `MigrationResume.CopyAfterWrite` | cmds/installd/utils.c:339-388 | copying a certificate again after any part of it was written gives what copying it once gives |
| `MigrationResume.DeleteFileKeeps` | cmds/installd/installd.c:582-587 | deleting a keychain file that every user has changes no one's final certificates |
| `MigrationResume.ExecKeepsTarget` | cmds/installd/installd.c:378-599 | no step changes the disk that the run will leave in the end, and each step keeps its invariant |
| `MigrationResume.DoneIsTarget` | cmds/installd/installd.c:593-599 | a finished run has reached the disk that `Target` gives |
| `MigrationResult.ObbIsShared` | cmds/installd/installd.c:494-511 | after every upgrade from version 1 of a disk with media/0/Android/obb and without media/obb, exactly the nodes that were below the former are below media/obb, the same nodes, and nothing is at the former |
| `MigrationResult.ObbStays` | cmds/installd/installd.c:494-522 | with media/obb there already, without media/0/Android/obb, or from a later version, no node moves |
| `MigrationResult.OthersStay` | cmds/installd/installd.c:494-522 | from version 1 on no other node moves |
| `MigrationResult.DirectoriesMade` | cmds/installd/installd.c:513-522 | after every upgrade there are media/0 and media/obb |
| `MigrationResult.MediaIsOwners` | cmds/installd/installd.c:420-511 | after every upgrade from an ordinary version 0, what was at a path below media is at that path below media/0, but what was below media/Android/obb is below media/obb and gone from media/0, unless a user is called obb |
| `MigrationResult.TmpIsOwners` | cmds/installd/installd.c:420-511 | the same of the files below media.tmp where there is one at the start |
| `MigrationResult.UsersGetDirectories` | cmds/installd/installd.c:462-492 | every user has a directory in media, media holds nothing else but the two of the owner, and media.tmp is gone |
| `MigrationResult.VersionPersisted` | cmds/installd/installd.c:593-599 | the layout version at the end is 3, or the later one there was, and the primary user has a place in user/ |
| `MigrationResult.CertsDelivered` | cmds/installd/installd.c:525-590 | after every upgrade from a version up to 2, every user has each certificate of the keychain, written over the one of that name that was there, and the keychain is gone |
| `MigrationResult.CertsKept` | cmds/installd/installd.c:525-590 | all other certificates are what they were, and from version 3 on the keychain is too |
| `MigrationEnds.NextStep` | cmds/installd/installd.c:378-599 | wherever the program is, it has a next step, and that brings it nearer to its end |
| `MigrationEnds.Completes` | cmds/installd/installd.c:378-599 | from every disk an uninterrupted run comes to an end, and it completes if and only if the media tree allows every call of it |
| `MigrationEnds.EveryRunCompletes` | cmds/installd/installd.c:378-599 | every uninterrupted run that has stopped, in whatever order it took the users, has completed if and only if the media tree allows every call of it |
| `MigrationEnds.ExecKeepsPassable` | cmds/installd/installd.c:378-599 | no step changes whether the run will complete |
| `MigrationEnds.OrdinaryPasses` | cmds/installd/installd.c:420-522 | an upgrade from version 0 completes when there is a media directory, no media.tmp, and Android/obb is not a file |
| `MigrationEnds.LateCrashShows` | cmds/installd/installd.c:420-460 | from every such disk, a run restarted right after media.tmp became media/0 and a run not restarted both complete and leave different disks |
| `MigrationEnds.LateCrash` | cmds/installd/installd.c:420-460 | such a pair of runs from an empty media directory |
| `MigrationCrash.LateRestartDiffers` | cmds/installd/installd.c:420-460 | from version 0, every restart after media.tmp became media/0 changes the final disk |
| `MigrationCrash.TargetAlong` | cmds/installd/installd.c:378-599 | along every run the final disk is the first one until such a restart, and never again after it |
| `MigrationCrash.CrashesDoNotShow` | cmds/installd/installd.c:378-599 | a run with crashes that completes leaves what an uninterrupted run leaves, if and only if none of its restarts was such a late one |
| `MigrationCrash.CrashesNeverShow` | cmds/installd/installd.c:378-599 | from version 1, 2 or later, any two runs from the same disk that complete leave the same disk, whatever crashes they had |
| `LineReader.FindNewline` | cmds/installd/commands.c:1311-1314 | the first newline in the buffer, or its end |
| `LineReader.Slide` | cmds/installd/commands.c:1403-1407 | the partial line moves to the front unaltered |
| `LineReader.Refill` | cmds/installd/commands.c:1397-1419 | the buffer still holds the file from the cursor on, the window moves only to keep a partial line, and what is read is decided by the room, the file and the size of the read |
| `LineReader.LineFound` | cmds/installd/commands.c:1315-1396 | the text up to the newline is the next line of the file |
| `LineReader.ReadLines` | cmds/installd/commands.c:1306-1420 | for every chunking of the reads: a prefix of the newline-terminated lines, in order and unaltered, up to the exact place where that chunking stops; all of them if and only if no newline is left from there on |
| `LineReader.WhatIsLeftOut` | cmds/installd/commands.c:1306-1420 | without read errors a line is left out only because a line has at least 256 characters, or whole lines from the start of the file or of a nonempty line exactly filled the buffer with another line to follow |
| `LineReader.AllReadFully` | cmds/installd/commands.c:1306-1420 | with full reads every line is processed if and only if each window over the file, in turn, has a newline in it that is not on its last place (or is the last of all), or reaches the end of the file |
| `LineReader.StopsAtLongLine` | cmds/installd/commands.c:1397-1416 | no chunking gets past a line of 256 characters or more |
| `LineReader.ProbeLoses` | cmds/installd/commands.c:1397-1416 | for every exact fit there is a chunking that loses a line |
| `LineReader.AlwaysAllRead` | cmds/installd/commands.c:1306-1420 | every chunking without errors processes every line, if and only if there is no such line and no such exact fit in the file |
| `LineReader.SecondLineLost` | cmds/installd/commands.c:1306-1420 | a concrete file of two short lines of which the second is lost |
| `PathBuilders.AppendAndIncrement` | cmds/installd/utils.c:1059-1067 | appends the whole string or fails with as much as fits; what is before the cursor stays |
| `PathBuilders.IsValidPackageName` | cmds/installd/utils.c:181-220 | a name without '-' is accepted if and only if all its characters are legal and its dots are inside and single |
| `PathBuilders.LegalIs` | cmds/installd/utils.c:181-220 | legal are the names of letters, digits, underscores, dashes and dots in which each dot has something other than a dot before and after it |
| `PathBuilders.UserTextIs` | cmds/installd/utils.c:58-99 | the number in a user's path is that of the user as a signed 32-bit number, in decimal digits without leading zeros |
| `PathBuilders.CreatePkgPathInDir` | cmds/installd/utils.c:21-52 | directory, name and suffix, or failure and an untouched buffer; which of the two is decided exactly |
| `PathBuilders.CreatePkgPath` | cmds/installd/utils.c:58-99 | data directory, user prefix, name and suffix in less than 256 characters |
| `PathBuilders.PathIs` | cmds/installd/utils.c:58-99 | the path is the data directory, data/ for user 0 or user/, the number and a slash for any other, the name and the suffix |
| `PathBuilders.BuildPrefix` | cmds/installd/utils.c:63-92 | the prefix always fits its own buffer |
| `PathBuilders.PkgPathInjective` | cmds/installd/utils.c:58-99 | user, name and suffix can be read off the path |
| `PathBuilders.CreateCachePath` | cmds/installd/commands.c:588-626 | the path for an accepted source, with '@' for every slash after the instruction set; failure otherwise, exactly |
| `PathBuilders.CachePathIsFlat` | cmds/installd/commands.c:604-626 | no slash after the instruction set's directory, and less than 256 characters |
| `PathBuilders.CachePathSame` | cmds/installd/commands.c:612-626 | two sources share a path if and only if they differ in nothing but '/' for '@' |
| `PathBuilders.CachePathInjective` | cmds/installd/commands.c:612-626 | sources without '@' never share one |

## Left out

- The declarations under include/ (gui, binder, input, android): their implementations are not part of this repository.
- cmds/flatland, cmds/atrace, cmds/dumpstate, cmds/dumpsys, cmds/service, cmds/bugreport and cmds/ip-up-vpn: process, sysfs, socket and GL plumbing.
- `dexopt`, `idmap`, `aapt` and the other commands of installd that start processes or relabel files.
- `execute` in installd.c: its reply depends on stale bytes of a buffer, and its dispatch is a table lookup.
- CachePath.CreateDirPath: requires that the path fits the buffer; `FreeCache.FreeCache` ends with the outcome `Overrun` where a collected directory's path does not, and says nothing about what the program does then.
- CacheRoots.FindRoots: the paths that the scan builds fit their buffers, where the code cuts off longer ones; links are not followed, and the scan is finished before the walk over the first cache directory begins, where the code does both in turn.
- FreeCache.FreeCache: requires that the path of each cache directory fits PATH_MAX; in a run that ends with `Overrun` it promises nothing about the files.
- CacheCollect.CollectDir: a directory listing is a value read once, without "." and ".."; files that other processes create or remove meanwhile are not modelled.
- CacheDisk.Disk.DeleteDirContents: removes a set of nodes in one step, some of which may be left; the order of the removals inside it is not modelled.
- CacheEvict.SortFiles: sorts the sequence of files; the slots of the array in the arena are followed up to that point.
- CacheEvict.SortByModTime: gives one order of files with equal times, where `qsort` may give any; the contracts rely only on the order by time.
- CacheArena.Arena.Malloc: sizes are unbounded, so the wrap-around of `size_t` is not modelled, and `malloc` hands out blocks numbered afresh.
- BinderIo.Bio.PutString16: memory is a sequence of 16-bit units, so sizes in bytes are halved; no alignment smaller than that occurs in the source.
- BinderIo.Bio.FromTxn: the kernel carries bytes and offsets unchanged; its translation of handles between processes is not modelled.
- BinderParse.Parse: the buffers that a reply points to are not read; the contents of `binder_write` calls are recorded as effects.
- ServiceManager.Manager.SvcinfoDeath: the linked list is a sequence, and a pointer to an entry is its number in the order of registration.
- RawWipe.Wipe: paths fit `nameBuffer`, into which the code copies without a check.
- RawWipe.WipeEntry: the same.
- RawRestore.RestoreData: times of directories are left out, since restoring their contents changes them; memory for paths can always be had.
- RawTree.Resolve: takes the path of a record for an absolute one without ".", ".." and NUL, as those of a backup are; in other streams the kernel resolves such paths differently.
- RawRoundTrip.BackupThenRestore: the backup file is not one of the saved files, and nothing is promised where a link, device, pipe or socket that could not be removed is at a saved path or above one; calls on it may take effect elsewhere or block.
- MigrationDisk.Rename: two paths that are links to one file and are renamed one to the other; the call then leaves both, where the model drops one.
- Migration.Exec: numeric user names only; modes, owners and labels of the migrated directories, and symbolic links other than /data/user/0, are not modelled.
- MigrationResume.ExecKeepsTarget: certificate directories are flat, and no call in the certificate copy fails.
- LineReader.ReadLines: what `movefiles` does with a line is not modelled, and `memcpy` on overlapping ranges copies forwards.
- PathBuilders.IsValidPackageName: for names with '-' the code reads past the end of the string, so the answer is left open there.
