# Verified model of symboldb

symboldb loads RPM repositories into a database. This project models its self-contained
algorithms in Dafny and proves what they promise: that the dependency closure is exactly the
transitive closure, that the download pipeline loses no URL and cannot hang, that every file
of a package is reported exactly once, that the XML layer decodes what was encoded, and that
parsers, printers and caches are each other's inverses. `dafny verify dfyconfig.toml` checks
everything.

Foreign libraries and the operating system are parameters. Query results are sequences of
rows; Expat is a producer of batches of events; the RPM header is a sequence of records and
the decompressed payload a string; hash functions, `rpmvercmp` and `strtoull` are function
parameters; a system call succeeds or fails as the caller decides.

| Files | Part of symboldb |
|---|---|
| `Closure`, `SonameLookup`, `UpdateElfClosure` | resolving SONAMEs by a path heuristic, suppressing spurious conflicts, and the in-place fixpoint |
| `BoundedQueue`, `QueueMonitor` | the bounded ordered queue: its sections, and the monitor with sleeping, woken and spuriously woken threads |
| `Downloader`, `DownloaderProgress` | helper threads, consumer and three retry rounds over that monitor: safety, then deadlock freedom and termination |
| `Cpio`, `CpioArchive` | cpio headers and the entries of an archive |
| `RpmPayload`, `RpmAcceptance`, `RpmParser`, `RpmArchive` | the payload merged with the header, hard-link groups and ghost files: what is reported, which packages are accepted, the reader object, and all of this for written archives |
| `XmlEvents`, `ExpatSource`, `XmlTree`, `Minidom`, `Primary`, `PrimaryRecords`, `MavenUrl` | the pull parser over the event buffer and its three consumers |
| `ConstStringref`, `SqlSplitter`, `SqlOpenComments` | string slices, the SQL statement splitter, and when it drops a statement |
| `VectorExtract`, `JavaClass` | big-endian reads and the constant pool of class files |
| `Utf8` | UTF-8 validation and the Latin-1 converter |
| `Base16`, `FileCache` | the content-addressed cache |
| `Consolidator` | the newest version of each package |
| `Asdl`, `AsdlParser` | the ASDL printers, and a parser that inverts them |
| `Wrappers`, `Bytes`, `Sequences`, `Database`, `Ordering`, `StringSupport` | shared definitions |

Code that changes state is modelled as it is written: classes with the original's fields, and
loops with invariants, proved against specification functions. The theorems are about those
functions and about runs of them; what a function computes is also said without it, with the
names, tags and characters written out. Threads are modelled as interleaved atomic sections: a
section runs under the mutex, and a thread that waits sleeps until a signal, a broadcast or a
spurious wake-up makes it ready. Lemmas are marked `{:induction false}`: every induction is
the recursive call in the body.

Where the code does not do what one would expect, the model follows the code:

- a `--` comment that is not terminated ends the splitter silently, even inside a statement
  (`lib/cxxll/pg_split_statement.cpp:36-41`); `SqlOpenComments.DropsExactlyAtOpenComments` says
  on any input when a statement is lost;
- an epoch is assigned to a string and so kept modulo 256
  (`include/cxxll/package_set_consolidator.hpp:78`); in particular a package without an epoch,
  which has epoch -1 (`lib/cxxll/rpm_parser.cpp:203-206`), outranks every epoch from 0 to 254
  (`Consolidator.MissingEpochOutranks`). `Consolidator.EpochsAgreeExactly` says exactly which
  epochs are ordered by number, and `Consolidator.NewestByNumberExactly` exactly for which the
  newest package is the newest by number; epochs of one block of 256, such as 0 to 255, are;
- a long or double at the last index of a constant pool stores one slot more than announced
  (`lib/cxxll/java_class.cpp:78-84`); `JavaClass.ExtraSlotExactly` says
  when, and `JavaClass.WideLastIsAccepted` is such a file;
- the preferences for standard library directories and for the needing file's own directory are
  a sum of weights, so they depend on the lengths of the paths
  (`lib/symboldb/update_elf_closure.cpp:67-89`); `SonameLookup.StandardDirectoryWins` with
  `SonameLookup.StandardDirectoryBoundIsTight`, and `SonameLookup.DirectoryBoundIsExact`, give
  the exact bounds;
- `add_producer` wraps the count before it raises
  (`include/cxxll/bounded_ordered_queue.hpp:100-103`); this is the one step that can break the
  queue's invariant, as `QueueMonitor.StepKeepsInv` states in both directions, and it can come
  about (`QueueMonitor.OverflowIsReachable`);
- the check of sizes across a hard-link group compares digests twice
  (`lib/cxxll/rpm_parser.cpp:788-793`), so nothing is claimed about sizes in a group;
- a ghost file whose inode is that of a group delivers the group's contents
  (`RpmAcceptance.GhostDeliversGroup`) but is reported again as a ghost
  (`lib/cxxll/rpm_parser.cpp:780-784`, `RpmAcceptance.SharingGhostReportedOnce`);
- a temporary file of the cache whose removal fails stays, without a report
  (`lib/cxxll/file_cache.cpp:122-132`); `FileCache.DestroyLeaves`, `FileCache.FailedOpenLeaves`
  and `FileCache.LeftExactlyIfNotRemoved` say exactly when one is left.

## Model

| member | source | states |
|---|---|---|
| Closure.ReachesTransitive | lib/symboldb/update_elf_closure.cpp:311-343 | chains of dependencies compose: what `a` reaches can be followed by what `b` reaches |
| Closure.ClosedContainsChains | lib/symboldb/update_elf_closure.cpp:325-341 | a map that contains the base map and is closed at every file lists the end of every chain of base dependencies |
| Closure.MissingShrinks | lib/symboldb/update_elf_closure.cpp:336-338 | the termination measure: a map that has grown by reachable pairs only lacks strictly fewer (file, target) pairs |
| Closure.AbsorbOne | lib/symboldb/update_elf_closure.cpp:333-339 | the innermost loop: the targets of one dependency become targets of the file, which may be that dependency itself; nothing else changes, and a change is reported exactly if there was one |
| Closure.Absorb | lib/symboldb/update_elf_closure.cpp:326-341 | one file of one pass, inserting into the set that is being walked: it ends, adds reachable files only, touches no other file, reports a change exactly if there was one, and without a change the file's set is closed |
| Closure.TransitiveClosure | lib/symboldb/update_elf_closure.cpp:311-343 | the fixpoint loop ends for every base map, and the result lists `b` for `a` exactly when a chain of one or more base dependencies leads from `a` to `b` |
| SonameLookup.RatePath | lib/symboldb/update_elf_closure.cpp:63-90 | the loop computes the rating: the bonuses, twice the longest common prefix, minus the length |
| SonameLookup.StandardDirectoryWins | lib/symboldb/update_elf_closure.cpp:71-89 | a standard library directory beats any other path whenever the two lengths together stay below 90000 |
| SonameLookup.StandardDirectoryBoundIsTight | lib/symboldb/update_elf_closure.cpp:67-89 | for all lengths beyond that bound (of at least five and two characters) there are paths for which the preference fails, so the bound on lengths is exact |
| SonameLookup.SameDirectoryWins | lib/symboldb/update_elf_closure.cpp:78-89 | within a class, the directory of the needing file beats another directory whenever the two lengths together stay below 10004 (10002 against an empty path) |
| SonameLookup.DirectoryBoundIsExact | lib/symboldb/update_elf_closure.cpp:67-89 | for every pair of lengths, no path can defeat the needing file's directory if and only if the lengths stay below that bound |
| SonameLookup.WinnerStep | lib/symboldb/update_elf_closure.cpp:136-151 | one round of the scan keeps the winner of the providers seen so far |
| SonameLookup.WinnerUnique | lib/symboldb/update_elf_closure.cpp:136-151 | the winner (maximal rating, least package name at its path, first among equals) is unique, so the scan has only one correct outcome |
| SonameLookup.BestProvider | lib/symboldb/update_elf_closure.cpp:129-151 | the scan over two or more candidates ends with the winner |
| SonameLookup.Lookup | lib/symboldb/update_elf_closure.cpp:97-168 | a reference resolves to the winner's file or to none; the callback is told nothing, a missing name, or the winner followed by all providers with other identifiers |
| SonameLookup.ResolvesToUnique | lib/symboldb/update_elf_closure.cpp:97-168 | a reference resolves to at most one file |
| SonameLookup.LeastPackageResolves | lib/symboldb/update_elf_closure.cpp:136-151 | of one path in several packages, the package whose name is least provides the file |
| SonameLookup.ResolvesBelowStandard | lib/symboldb/update_elf_closure.cpp:67-151 | if some provider is below `/lib`, `/lib64`, `/usr/lib` or `/usr/lib64`, a reference resolves to one that is, unless paths are too long |
| SonameLookup.ResolvesToSibling | lib/symboldb/update_elf_closure.cpp:67-151 | among providers that are all below those directories, or none of them, a reference resolves to a file in the directory of the needing file if there is one, unless paths are too long |
| SonameLookup.SameDirectoryIsSiblings | lib/symboldb/update_elf_closure.cpp:50-62 | two paths have the same directory exactly if they agree up to a last slash |
| SonameLookup.OtherIdsInOrder | lib/symboldb/update_elf_closure.cpp:153-166 | the conflicting choices come in the order of the providers |
| SonameLookup.PruneGroup | lib/symboldb/update_elf_closure.cpp:206-225 | the scan and erasure of one group leave its only provider that is not spurious (of a compatibility package, or below one of four paths for special processors and kernels) if there is exactly one, and the whole group otherwise |
| SonameLookup.PrunedSuppresses | lib/symboldb/update_elf_closure.cpp:171-225 | which providers count as spurious, by package and by path, and what becomes of a group |
| SonameLookup.PruneGroups | lib/symboldb/update_elf_closure.cpp:201-227 | the loop over the SONAMEs of one architecture prunes each of its groups in place and nothing else |
| SonameLookup.IgnoreSomeConflicts | lib/symboldb/update_elf_closure.cpp:193-229 | the same for every group of every architecture |
| SonameLookup.PrunedTwice | lib/symboldb/update_elf_closure.cpp:214-225 | pruning a group twice is pruning it once, and empties no group |
| SonameLookup.PruningKeepsResolvable | lib/symboldb/update_elf_closure.cpp:171-229 | exactly the same (architecture, SONAME) pairs are resolvable after pruning as before, among all providers or the only one that is not spurious |
| SonameLookup.PruningIsIdempotent | lib/symboldb/update_elf_closure.cpp:191-229 | running the suppression of conflicts twice equals running it once, and leaves no empty group behind |
| UpdateElfClosure.IndexProviders | lib/symboldb/update_elf_closure.cpp:263-278 | the index holds, for each architecture and effective SONAME, exactly the providers of the rows in row order |
| UpdateElfClosure.ProvidersListed | lib/symboldb/update_elf_closure.cpp:263-278 | a group has exactly the files of the rows of its architecture that name its SONAME, or name none and have it as the last component of their path |
| UpdateElfClosure.ListedInRowOrder | lib/symboldb/update_elf_closure.cpp:263-278 | further rows are listed behind |
| UpdateElfClosure.NeedsNext | lib/symboldb/update_elf_closure.cpp:297-307 | a row adds the one file that its SONAME resolves to, and no other pair |
| UpdateElfClosure.DirectDependencies | lib/symboldb/update_elf_closure.cpp:290-309 | the base map has an edge exactly where some row of the file needs a SONAME that resolves to the target |
| UpdateElfClosure.UpdateElfClosure | lib/symboldb/update_elf_closure.cpp:242-343 | from the rows to the closure: `b` is listed for `a` exactly when a chain of needed SONAMEs, resolved among the providers that are left when spurious conflicts are suppressed, leads from `a` to `b` |
| Ordering.LessTransitive | lib/cxxll/const_stringref.cpp:37-58 | the lexicographic order of keys is transitive |
| Ordering.LessTotal | lib/cxxll/const_stringref.cpp:37-58 | and total |
| Ordering.LessAtDifference | lib/cxxll/const_stringref.cpp:37-58 | behind the common prefix the smaller character, or else the shorter string, comes first |
| Ordering.CompareIsLess | lib/cxxll/const_stringref.cpp:37-64 | comparing a common prefix and then the lengths is the lexicographic order, and zero means equal |
| Ordering.PassedNext | lib/symboldb/update_elf_closure.cpp:327-330 | incrementing an iterator over an ordered container passes exactly the key it stood on |
| BoundedQueue.InsertedSorted | include/cxxll/bounded_ordered_queue.hpp:137 | insertion keeps the entries ordered by key |
| BoundedQueue.InsertedLast | include/cxxll/bounded_ordered_queue.hpp:137 | insertion puts the entry last among those of its key and moves no other entry |
| BoundedQueue.BoundedOrderedQueue.Create | include/cxxll/bounded_ordered_queue.hpp:82-87 | construction is refused exactly for capacity zero; otherwise the queue is empty, with the producers asked for |
| BoundedQueue.BoundedOrderedQueue.AddProducer | include/cxxll/bounded_ordered_queue.hpp:96-104 | the count is incremented modulo 2^32; a wrap to zero raises, with the count already changed |
| BoundedQueue.BoundedOrderedQueue.RemoveProducer | include/cxxll/bounded_ordered_queue.hpp:106-117 | raises without producers; otherwise decrements, and broadcasts exactly when none is left |
| BoundedQueue.BoundedOrderedQueue.Push | include/cxxll/bounded_ordered_queue.hpp:126-139 | raises, waits or inserts in order, as the section on the abstract queue prescribes, whether entered anew or after a wake-up |
| BoundedQueue.BoundedOrderedQueue.Pop | include/cxxll/bounded_ordered_queue.hpp:141-159 | delivers an entry of least key, waits, or reports the end when there is neither entry nor producer |
| QueueMonitor.StepKeepsInv | include/cxxll/bounded_ordered_queue.hpp:96-159 | every atomic step of any thread, spurious wake-ups included, keeps the invariant if and only if it is not an `add_producer` that wraps the count to zero while a reader sleeps |
| QueueMonitor.OverflowIsReachable | include/cxxll/bounded_ordered_queue.hpp:99-103 | that failing step can come about: after one `pop` on an empty queue with 2^32 - 1 producers, `add_producer` breaks the invariant |
| QueueMonitor.RunKeepsInv | include/cxxll/bounded_ordered_queue.hpp:96-159 | the invariant holds in every state of every run of any number of threads |
| QueueMonitor.NoLostWakeup | include/cxxll/bounded_ordered_queue.hpp:126-159 | in every reachable state the size is within capacity, a sleeping reader beside an entry or a sleeping writer beside a free place has a woken peer, not everybody sleeps, and without producers no reader sleeps |
| QueueMonitor.RunConserves | include/cxxll/bounded_ordered_queue.hpp:126-159 | what was pushed is, as a multiset and key by key in order, what was popped followed by what is queued |
| QueueMonitor.ReadyThreadsRun | include/cxxll/cond.hpp:43-53 | a thread that has been woken can always take its next step |
| QueueMonitor.PushHasEffect | include/cxxll/bounded_ordered_queue.hpp:126-139 | what a push does to the queue, the logs and the waiting threads, for each of its outcomes |
| QueueMonitor.PushAgainHasEffect | include/cxxll/bounded_ordered_queue.hpp:134-138 | the same for a writer that re-enters its wait loop |
| QueueMonitor.PopHasEffect | include/cxxll/bounded_ordered_queue.hpp:141-159 | what a pop does, first entered or re-entered, for each of its outcomes |
| QueueMonitor.OtherHasEffect | include/cxxll/bounded_ordered_queue.hpp:96-117 | producer changes and spurious wake-ups move no entry |
| Downloader.StartInv | lib/symboldb/download_repo.cpp:136-171 | the pipeline starts in a state that satisfies the invariant |
| Downloader.TakeKeepsLedger | lib/symboldb/download_repo.cpp:229-236 | taking a URL from the list moves it into the helper's hands |
| Downloader.PutStepKeepsLedger | lib/symboldb/download_repo.cpp:302-311 | pushing a load moves its URL from the helper to the queue exactly when the push goes in |
| Downloader.EndRoundKeepsLedger | lib/symboldb/download_repo.cpp:207-214 | ending a round turns the failures into the next round's input, losing none |
| Downloader.PutEffect | lib/symboldb/download_repo.cpp:302-311 | a helper's push never raises, since its own registration keeps the producer count above zero |
| Downloader.StepKeepsInv | lib/symboldb/download_repo.cpp:164-313 | every step of every thread keeps the invariant that ties helpers, consumer, queue, rounds and the ledger of URLs together |
| Downloader.RunKeepsInv | lib/symboldb/download_repo.cpp:164-313 | the invariant holds over every interleaving |
| Downloader.RoundEndsDrained | lib/symboldb/download_repo.cpp:183-208 | when `pop` has returned false, no URL is left to take, no helper is active, and the queue has neither entry nor producer: both assertions hold |
| Downloader.FinishedAccountsForAll | lib/symboldb/download_repo.cpp:164-218 | at the end every starting URL was found in the database, popped, or is left over, with multiplicity, and what is left over failed in each of the three rounds |
| Downloader.FailuresShrink | lib/symboldb/download_repo.cpp:172-214 | each round's failures are among those of the round before |
| Downloader.LeastNameIsLoaded | lib/symboldb/download_repo.cpp:140-152 | of the packages that are ready, the consumer gets one whose name is least |
| DownloaderProgress.NoDeadlock | lib/symboldb/download_repo.cpp:164-240 | in every reachable unfinished state some thread can take a step that is not a spurious wake-up |
| DownloaderProgress.SleepingConsumer | lib/symboldb/download_repo.cpp:186 | a consumer asleep in `pop` implies that some helper can move |
| DownloaderProgress.StepCloser | lib/symboldb/download_repo.cpp:164-313 | every step other than a spurious wake-up brings the end strictly closer |
| DownloaderProgress.CanFinish | lib/symboldb/download_repo.cpp:164-218 | from every reachable state some continuation finishes |
| DownloaderProgress.Descends | lib/symboldb/download_repo.cpp:164-218 | the measure falls along every run without spurious wake-ups |
| DownloaderProgress.Terminates | lib/symboldb/download_repo.cpp:164-218 | there is no infinite run without spurious wake-ups |
| RpmPayload.FilesOf | lib/cxxll/rpm_parser.cpp:237-249 | the names in the file map are the names of the header; each is unseen and leads to the last of its records |
| RpmPayload.Links | lib/cxxll/rpm_parser.cpp:226-249 | a group is listed in header order |
| RpmPayload.LinksExactly | lib/cxxll/rpm_parser.cpp:226-249 | a group has exactly the records that count as hard links with that inode |
| RpmPayload.GhostRun | lib/cxxll/rpm_parser.cpp:413-433 | among the ghosts, a run of calls is what walking the file map once reports |
| RpmPayload.RunInTwoPasses | lib/cxxll/rpm_parser.cpp:599-806 | a run of calls returns these reports and then false if and only if reading all entries and then walking the file map gives them: the pull interface refines two passes |
| RpmPayload.GroupMarks | lib/cxxll/rpm_parser.cpp:768-778 | a name is marked as seen exactly when it is reported by its group, and was unmarked before |
| RpmPayload.StepMarks | lib/cxxll/rpm_parser.cpp:736-797 | the same for any entry that delivers something |
| RpmPayload.PayloadMarks | lib/cxxll/rpm_parser.cpp:599-806 | after all entries, the marks are those before plus one per reported name |
| RpmPayload.GhostsMarks | lib/cxxll/rpm_parser.cpp:413-433 | behind the end marker every unmarked name is reported once, and nothing else is |
| RpmPayload.EveryFileOnce | lib/cxxll/rpm_parser.cpp:599-806 | on any complete run, every name of the header occurs exactly once in what is returned, and no other name occurs |
| RpmPayload.StepDelivers | lib/cxxll/rpm_parser.cpp:736-797 | what an entry delivers is the file it names, or the whole group of that file's inode with one common digest |
| RpmPayload.ReportOrigins | lib/cxxll/rpm_parser.cpp:599-806 | every report is non-empty, and either carries the contents of a payload entry that names its file or group, or is about a single ghost |
| RpmAcceptance.GroupsAreWhole | lib/cxxll/rpm_parser.cpp:761-797 | on any complete run, the members of a hard-link group come in one report, together with the contents of one entry |
| RpmAcceptance.GroupAccepts | lib/cxxll/rpm_parser.cpp:768-778 | a group is delivered exactly if all its members have digests and none was reported before |
| RpmAcceptance.GhostDeliversGroup | lib/cxxll/rpm_parser.cpp:754-785 | an entry for a ghost that shares the inode of a group delivers the whole group with its contents, and leaves the ghost unmarked |
| RpmAcceptance.SharingGhostReportedOnce | lib/cxxll/rpm_parser.cpp:413-433 | on any complete run, such a ghost is still reported exactly once, as a ghost without contents |
| RpmAcceptance.StepAccepts | lib/cxxll/rpm_parser.cpp:727-804 | an entry is read over without an exception exactly if it is in order by itself and none of the files it covers was reported; the new marks are the covered files |
| RpmAcceptance.WhyRejected | lib/cxxll/rpm_parser.cpp:717-804 | which of six exceptions an entry raises, in terms of the records and the files reported before |
| RpmAcceptance.PayloadAccepts | lib/cxxll/rpm_parser.cpp:599-806 | the payload is read over exactly if all entries are in order and no file is covered twice |
| RpmAcceptance.GhostsAccept | lib/cxxll/rpm_parser.cpp:413-433 | the ghosts are read to their end exactly if everything else has been seen |
| RpmAcceptance.WhyGhostsRejected | lib/cxxll/rpm_parser.cpp:413-433 | otherwise the exception is about a file that is no ghost and was not in the payload |
| RpmAcceptance.ReadExactlyIfWellFormed | lib/cxxll/rpm_parser.cpp:599-806 | a package with unique names is read to its end if and only if its payload is an archive in which every entry is in order, every file that is not a ghost is covered, and none is covered twice |
| RpmArchive.NormalizedName | lib/cxxll/rpm_parser.cpp:685-689 | an absolute path is the name of its file in the payload with a leading dot and without |
| RpmArchive.NamedOnlySo | lib/cxxll/rpm_parser.cpp:685-718 | and no other name in the payload is |
| RpmArchive.ArchiveIsRead | lib/cxxll/rpm_parser.cpp:599-806 | an archive whose members are about records of the header is read to its end if and only if digests are known and agree within a group, hard links come with all of the contents or none, no file is delivered twice, and only ghosts are missing |
| RpmArchive.PlainArchiveIsRead | lib/cxxll/rpm_parser.cpp:599-806 | in particular, without hard links, an archive with one member for each file that is not a ghost is read |
| RpmArchive.StrangerIsRejected | lib/cxxll/rpm_parser.cpp:717-723 | an archive with a member that is about no record is not read to its end |
| RpmArchive.ArchiveReports | lib/cxxll/rpm_parser.cpp:599-806 | on a complete run over an archive, every file is reported once, with what its record says and with the contents of a member that delivers it; a ghost as an empty file |
| RpmParser.CheckDigests | lib/cxxll/rpm_parser.cpp:786-796 | the loop accepts exactly the groups whose digests all equal the first |
| RpmParser.RpmParser.constructor | lib/cxxll/rpm_parser.cpp:435-463 | a new reader stands at the start of the payload |
| RpmParser.RpmParser.GetFilesFromHeader | lib/cxxll/rpm_parser.cpp:237-249 | the loop builds the file map and the multimap of hard links that the header stands for |
| RpmParser.RpmParser.OpenPayload | lib/cxxll/rpm_parser.cpp:388-411 | opening builds the index once and changes nothing that a caller can see |
| RpmParser.RpmParser.ReadFileGhost | lib/cxxll/rpm_parser.cpp:413-433 | the loop returns the next unseen file, which must be a ghost, and advances the iterator behind it |
| RpmParser.RpmParser.ReadGroup | lib/cxxll/rpm_parser.cpp:766-778 | the group loop marks and reports all members or raises; its assertion that no member is a ghost always holds |
| RpmParser.RpmParser.Deliver | lib/cxxll/rpm_parser.cpp:720-804 | an entry is delivered, skipped or rejected as the specification of a single step says, and the new marks are the specified ones |
| RpmParser.RpmParser.ReadFile | lib/cxxll/rpm_parser.cpp:599-806 | one call returns what the specification returns, and leaves the specified state unless it raises; its loop ends |
| RpmParser.ReadAdvances | lib/cxxll/rpm_parser.cpp:599-806 | every report brings the end closer |
| RpmParser.RpmParser.ReadAll | lib/symboldb/rpm_load.cpp:543-562 | the caller's loop ends; it succeeds exactly on the packages that can be read, with a complete run |
| Cpio.ReadNumber | lib/cxxll/cpio_reader.cpp:49-86 | the digit loops compute the 32-bit value of the text, or fail at a character that is no digit |
| Cpio.HexRoundTrip | lib/cxxll/cpio_reader.cpp:69-86 | every number that fits the width is read back from its hexadecimal digits |
| Cpio.OctalRoundTrip | lib/cxxll/cpio_reader.cpp:50-67 | octal digits are read back modulo 2^32, so the eleven digits of a time or a size are read back exactly if the number fits 32 bits |
| Cpio.ReadField | lib/cxxll/cpio_reader.cpp:49-86 | a field is read only if no earlier one was bad, and the first bad field is the one reported |
| Cpio.Parse | lib/cxxll/cpio_reader.cpp:101-147 | parsing succeeds exactly if all fields are numbers, gives the header they denote, and otherwise names the first bad field |
| Cpio.FieldNames | lib/cxxll/cpio_reader.cpp:104-142 | the names under which bad fields are reported |
| Cpio.HeaderFields | lib/cxxll/cpio_reader.cpp:104-142 | which field of either format goes where, including the constant zeros of the old format |
| Cpio.HeaderRoundTrip | lib/cxxll/cpio_reader.cpp:101-147 | all fields of either format survive printing and parsing: 13 of 32 bits, or ten of which eight have 18 bits and two 32 |
| CpioArchive.Padding | lib/cxxll/rpm_parser.cpp:660-671 | the padding is the least that reaches a multiple of four |
| CpioArchive.SkipPadding | lib/cxxll/rpm_parser.cpp:660-671 | the loop skips to the next multiple of four, or fails at the end of the stream |
| CpioArchive.ReadItem | lib/cxxll/rpm_parser.cpp:614-718 | reading one entry gives the entry that stands at the position, or the error it deserves |
| CpioArchive.MemberReadBack | lib/cxxll/rpm_parser.cpp:614-718 | a printed member of either format is read back with its header, name and contents, and the stream stands just behind it |
| CpioArchive.ArchiveRoundTrip | lib/cxxll/rpm_parser.cpp:604-718 | walking a padded archive of members of either format yields exactly its members, with every header at a multiple of four |
| XmlEvents.PositionRoundTrip | lib/cxxll/expat_source.cpp:220-240 | a position survives the copy into the buffer and out of it |
| XmlEvents.EncodeAllAppend | lib/cxxll/expat_source.cpp:258-310 | the encoding of a sequence of events is the concatenation of the callbacks' outputs, however they are batched |
| XmlEvents.StrLenOfCString | lib/cxxll/expat_source.cpp:170-174 | a NUL-free string behind which a NUL was written is measured and cut out exactly |
| XmlEvents.UnnestedIsStrip | lib/cxxll/expat_source.cpp:530-539 | skipping siblings one by one until an end tag, and stepping past it, closes exactly the enclosing element |
| XmlEvents.StripTwice | lib/cxxll/expat_source.cpp:495-515 | closing levels one after the other is closing them together |
| XmlEvents.StripDropsTexts | lib/cxxll/expat_source.cpp:517-521 | passing over text closes no level |
| ExpatSource.Source.constructor | lib/cxxll/expat_source.cpp:315-318 | a new source has all events ahead of it |
| ExpatSource.Source.Feed | lib/cxxll/expat_source.cpp:184-201 | feeding an empty buffer ends with a non-empty one, and loses or invents no event |
| ExpatSource.Source.PopPosition | lib/cxxll/expat_source.cpp:230-240 | the position of the event is recovered and the cursor moves behind it |
| ExpatSource.Source.SkipAttributes | lib/cxxll/expat_source.cpp:344-348 | the attribute loop, which measures each key together with its tag byte, moves exactly behind the attributes |
| ExpatSource.Source.DecodeEvent | lib/cxxll/expat_source.cpp:336-371 | decoding at an event boundary recovers the event and leaves the cursor on the next boundary |
| ExpatSource.Source.Next | lib/cxxll/expat_source.cpp:324-372 | successive calls decode exactly the encoded events, whatever the batches, and then report the end for ever |
| ExpatSource.Source.Name | lib/cxxll/expat_source.cpp:398-404 | the element's name, or the illegal-state exception |
| ExpatSource.Source.AttributeValue | lib/cxxll/expat_source.cpp:413-431 | the value of the first attribute of that name, or the empty string |
| ExpatSource.FirstAttributeCounts | lib/cxxll/expat_source.cpp:413-456 | of several attributes of one name the first counts, in a single lookup and in the map, where earlier keys stay |
| ExpatSource.AbsentAttribute | lib/cxxll/expat_source.cpp:413-456 | a name that is not there has the empty value, and no entry in the map |
| ExpatSource.Source.Attributes | lib/cxxll/expat_source.cpp:442-456 | all attributes are added, the first of a name winning and existing keys staying |
| ExpatSource.Source.TextContents | lib/cxxll/expat_source.cpp:458-464 | the text of a text event, or the illegal-state exception |
| ExpatSource.Source.TextAndNext | lib/cxxll/expat_source.cpp:473-486 | a run of text events is concatenated and consumed, and nothing else is |
| ExpatSource.Source.Skip | lib/cxxll/expat_source.cpp:488-528 | consumes exactly one element, one run of text or one end tag; on balanced events it ends and its assertion holds |
| ExpatSource.Source.Unnest | lib/cxxll/expat_source.cpp:530-539 | stops just behind the end tag of the enclosing element |
| XmlTree.StripSiblings | lib/cxxll/expat_source.cpp:499-514 | the events of siblings are balanced at every depth |
| XmlTree.StripElement | lib/cxxll/expat_source.cpp:495-515 | skipping at a start tag consumes exactly that element |
| XmlTree.StripContent | lib/cxxll/expat_source.cpp:530-539 | unnesting inside an element stops just behind it |
| XmlTree.BalancedIsTrees | lib/cxxll/expat_source.cpp:258-310 | every balanced stream is the stream of trees with merged text, so statements about trees cover all balanced streams |
| XmlTree.SiblingInFront | lib/cxxll/expat_source.cpp:488-539 | what a consumer sees in front of a list of siblings, and where skipping the first one leads |
| Minidom.BuildFinishes | lib/cxxll/expat_minidom.cpp:79-105 | the stack-based builder finishes on every balanced stream, just where the element closes |
| Minidom.BuildSiblings | lib/cxxll/expat_minidom.cpp:79-105 | the events of siblings add exactly their documents to the innermost open element |
| Minidom.BuildRoundTrip | lib/cxxll/expat_minidom.cpp:71-106 | building from the events of an element, its text cut into any chunks, gives back its document and stops just behind it |
| Minidom.BuildLoop | lib/cxxll/expat_minidom.cpp:79-105 | the loop over the source and the stack computes the builder |
| Minidom.Parse | lib/cxxll/expat_minidom.cpp:71-106 | raises exactly if the source does not stand on a start tag; otherwise returns what the builder gives and consumes what it consumes |
| Minidom.ParseElement | lib/cxxll/expat_minidom.cpp:71-106 | on the events of a tree, parsing returns its document and leaves the source just behind it |
| Primary.Reader.Open | lib/symboldb/repomd_primary.cpp:35-44 | the constructor accepts exactly a `<metadata>` root and stands on its content |
| Primary.Reader.TakeText | lib/symboldb/repomd_primary.cpp:113-116 | entering, reading the leading text and leaving consumes exactly the element, or raises without text |
| Primary.Reader.ProcessFormat | lib/symboldb/repomd_primary.cpp:174-195 | consumes exactly `<format>`; the last source RPM with text wins |
| Primary.Reader.ProcessVersion | lib/symboldb/repomd_primary.cpp:157-172 | consumes exactly `<version>`; an epoch that does not fit an `int` clears the version |
| Primary.Reader.ProcessChild | lib/symboldb/repomd_primary.cpp:106-149 | every branch consumes exactly one child and applies its meaning to the record, or raises; what the fields become is in PrimaryRecords |
| Primary.Reader.ProcessPackage | lib/symboldb/repomd_primary.cpp:97-151 | the loop over the children of a package applies all of them in order and ends at its end tag |
| Primary.Reader.Next | lib/symboldb/repomd_primary.cpp:82-155 | one call skips to the next `<package>` and returns its record (see PrimaryRecords.PackageReads) or the exception it deserves, or false at the end of the root element |
| Primary.RecordsFromPackage | lib/symboldb/repomd_primary.cpp:86-95 | skipping what is not a package changes no record |
| Primary.ReadAll | lib/symboldb/repomd_primary.cpp:82-155 | the calls visit exactly the packages, once and in order, up to the first that raises, and end |
| PrimaryRecords.AppliedReads | lib/symboldb/repomd_primary.cpp:97-195 | the children of a package raise no exception if and only if names, architectures and checksums begin with text and checksums are hexadecimal of a known kind; then each field is what the last child of its kind says, and an epoch that does not fit clears the version |
| PrimaryRecords.PackageReads | lib/symboldb/repomd_primary.cpp:59-155 | a `<package>` element yields a record exactly if it is of type `rpm`, its children raise nothing, the fields are those of its children, and none that is required is empty or unknown |
| PrimaryRecords.WhyNoRecord | lib/symboldb/repomd_primary.cpp:59-155 | a package raises for its type, for the first child that is not in order (text missing, or a bad checksum), or for data that are missing |
| PrimaryRecords.WrittenIsRead | lib/symboldb/repomd_primary.cpp:82-195 | a record written into a `<package>` element is read back, with its children in any order and any text and other elements between them |
| PrimaryRecords.OneRecordEach | lib/symboldb/repomd_primary.cpp:82-155 | one record for each `<package>` in document order, or those in front of the first that raises |
| StringSupport.TrimStrips | lib/cxxll/string_support.cpp:85-104 | stripping leaves what begins and ends with a character above the blank |
| MavenUrl.ClassifyTag | lib/cxxll/maven_url.cpp:88-124 | which tags carry a URL, and of which kind inside the open tags |
| MavenUrl.KindMeans | lib/cxxll/maven_url.cpp:88-124 | the four tags whose text is a URL, and what it is for: by its own tag, by an enclosing `<site>`, or by the outermost of five elements |
| MavenUrl.NestedUrl | lib/cxxll/maven_url.cpp:73-171 | an element with text yields, at any depth, its trimmed text with the kind that its surroundings mean |
| MavenUrl.UrlsAppend | lib/cxxll/maven_url.cpp:146-171 | the URLs of siblings follow each other in document order |
| MavenUrl.ExtractTextContents | lib/cxxll/maven_url.cpp:73-86 | adds the element's text if it begins with text, and consumes exactly the element |
| MavenUrl.WalkOverSiblings | lib/cxxll/maven_url.cpp:146-171 | walking over siblings yields their URLs and leaves the stack of tags as it was |
| MavenUrl.WalkOverRoot | lib/cxxll/maven_url.cpp:146-172 | on the content of a root element the stack is never popped empty early and is empty at the end: both assertions hold |
| MavenUrl.WalkLoop | lib/cxxll/maven_url.cpp:149-172 | the loop adds exactly the URLs of the walk and stops at the end of the document |
| MavenUrl.Extract | lib/cxxll/maven_url.cpp:126-173 | a project file yields the URLs of its tree in document order; any other document yields nothing |
| ConstStringref.IndexOf | include/cxxll/const_stringref.hpp:369-378 | the first occurrence, or the length |
| ConstStringref.Slice.At | include/cxxll/const_stringref.hpp:293-304 | the character, or the exception outside the slice |
| ConstStringref.Slice.Drop | include/cxxll/const_stringref.hpp:320-325 | the rest of the slice, or the exception beyond its end |
| ConstStringref.Slice.Substr | lib/cxxll/const_stringref.cpp:66-71 | at most that many characters from a position, or the exception |
| ConstStringref.Slice.Chr | include/cxxll/const_stringref.hpp:369-378 | the rest from the first occurrence on, or the empty slice |
| ConstStringref.Slice.UpTo | lib/cxxll/const_stringref.cpp:83-93 | the part before a later slice of the same buffer; everything if that slice is empty |
| SqlSplitter.QuoteCloses | lib/cxxll/pg_split_statement.cpp:52-60 | a string with doubled quotes ends at its closing quote |
| SqlSplitter.DollarsClose | lib/cxxll/pg_split_statement.cpp:72-82 | a `$$` string without `$$` inside ends at its closing `$$` |
| SqlSplitter.StepOverPiece | lib/cxxll/pg_split_statement.cpp:31-105 | inside a statement, a piece of the grammar is read as a whole |
| SqlSplitter.ScanGap | lib/cxxll/pg_split_statement.cpp:35-47 | between statements, white space and comments leave no trace |
| SqlSplitter.ScanStatement | lib/cxxll/pg_split_statement.cpp:88-104 | a statement is found as it was written, with its semicolon |
| SqlSplitter.SplitRoundTrip | lib/cxxll/pg_split_statement.cpp:25-109 | a script built from statements, white space and comments splits into exactly its statements; the grammar names its characters itself |
| SqlSplitter.FirstCharacters | lib/cxxll/pg_split_statement.cpp:96-104 | every ASCII character above the blank but the minus sign, the quote, the dollar sign and the semicolon begins a statement; white space does not |
| SqlSplitter.StepKeepsText | lib/cxxll/pg_split_statement.cpp:31-105 | a round keeps what it has read or drops it, but never rewrites it |
| SqlSplitter.SplitFindsSubstrings | lib/cxxll/pg_split_statement.cpp:25-109 | on any input the results are ordered, disjoint substrings of it |
| SqlSplitter.UnterminatedStatements | lib/cxxll/pg_split_statement.cpp:36-41 | behind any complete statements, an unterminated one is reported, but not if an unterminated comment follows: then it is dropped silently |
| SqlSplitter.ErrorsBetweenStatements | lib/cxxll/pg_split_statement.cpp:51-53 | behind complete statements, a string, a dollar sign and a semicolon raise three different errors |
| SqlSplitter.ErrorsInsideStatements | lib/cxxll/pg_split_statement.cpp:50-91 | inside a statement, a string or a `$$` string that is not closed raises its error |
| SqlOpenComments.ScanEndsProperly | lib/cxxll/pg_split_statement.cpp:25-109 | from any state of the loop: appending a line end and a semicolon to an accepted rest brings one more statement to light if the scan comes to an open comment inside a statement, and raises for an empty statement otherwise |
| SqlOpenComments.DropsExactlyAtOpenComments | lib/cxxll/pg_split_statement.cpp:25-109 | on any input: the splitter succeeds with a statement dropped if and only if it comes to an unterminated comment inside a statement |
| SqlSplitter.CommentRound | lib/cxxll/pg_split_statement.cpp:35-47 | the comment case over slices is the step of the scanner |
| SqlSplitter.QuoteRound | lib/cxxll/pg_split_statement.cpp:48-87 | so are the cases of quoted and `$$` strings |
| SqlSplitter.CharacterRound | lib/cxxll/pg_split_statement.cpp:88-104 | and those of the semicolon and of ordinary characters |
| SqlSplitter.PgSplitStatement | lib/cxxll/pg_split_statement.cpp:25-109 | the loop over slices computes the scanner's result, exceptions included |
| VectorExtract.Extract16 | lib/cxxll/vector_extract.cpp:42-50 | defined exactly where both bytes are inside the vector; the first byte is the high one, the second the low one |
| VectorExtract.Extract | lib/cxxll/vector_extract.cpp:24-34 | the slice, exactly if it lies inside the vector, although the sum of offset and length may wrap around |
| VectorExtract.Extract16Inverse | lib/cxxll/vector_extract.cpp:42-50 | a 16-bit number is read back from its big-endian bytes |
| JavaClass.WalkLaysOut | lib/cxxll/java_class.cpp:61-100 | on any accepted pool the entries lie one behind the other, and the slots are as many as announced or one more |
| JavaClass.ExtraSlotExactly | lib/cxxll/java_class.cpp:78-84 | there is one slot too many if and only if the last index announced holds a wide entry |
| JavaClass.WideLastIsAccepted | lib/cxxll/java_class.cpp:78-84 | a class file for which this happens: one slot is announced and two are stored |
| JavaClass.EntriesAreApart | lib/cxxll/java_class.cpp:61-100 | entries are disjoint and inside the pool |
| JavaClass.OffsetsBounded | lib/cxxll/java_class.cpp:61-100 | every stored offset fits 32 bits |
| JavaClass.AcceptedPool | lib/cxxll/java_class.cpp:39-125 | on any accepted buffer the pool lies between header and indexes, entries are disjoint, and offsets fit 32 bits |
| JavaClass.WalkPool | lib/cxxll/java_class.cpp:61-100 | the loop computes the slots and the end of the pool, or the exception |
| JavaClass.Parse | lib/cxxll/java_class.cpp:39-125 | the constructor accepts and recovers exactly what the specification of a parsed class says |
| JavaClass.ClassReferences | lib/cxxll/java_class.cpp:194-209 | the loop collects the names behind all class entries in order, or raises at the first bad one |
| JavaClass.ReferencesInOrder | lib/cxxll/java_class.cpp:194-209 | the names come in the order of the slots |
| JavaClass.WalkEncoded | lib/cxxll/java_class.cpp:61-100 | the walk over an encoded pool finds every entry, two slots for each long or double (section 4.4.5 of the Java Virtual Machine Specification), even if one slot less is announced at the end |
| JavaClass.SlotHolds | lib/cxxll/java_class.cpp:61-100 | each slot's offset leads to its entry, the second slot of a wide entry nowhere |
| JavaClass.ParseRoundTrip | lib/cxxll/java_class.cpp:39-125 | parsing the bytes of a well-formed class prefix, with the tags of section 4.4 of the Java Virtual Machine Specification and whatever follows, recovers pool, flags, this, super and interfaces |
| JavaClass.AcceptedExactly | lib/cxxll/java_class.cpp:39-125 | the constructor accepts a buffer if and only if the bytes of such a prefix are in front of it |
| JavaClass.WhyRejected | lib/cxxll/java_class.cpp:39-125 | a buffer is rejected for its magic number, for an empty pool, for an unknown tag, or because it ends too early |
| JavaClass.Utf8Lookup | lib/cxxll/java_class.cpp:163-180 | a lookup of a name yields the text of that slot, or the exception its kind calls for |
| JavaClass.ClassLookup | lib/cxxll/java_class.cpp:146-161 | a lookup of a class yields the name it refers to, or the exception on the way |
| JavaClass.ReferencesLookup | lib/cxxll/java_class.cpp:194-209 | the references are the names of all class slots, or the first error |
| JavaClass.LookupsRoundTrip | lib/cxxll/java_class.cpp:131-209 | on the bytes of a well-formed class prefix every lookup gives what the class says |
| JavaClass.AcceptedUtf8 | lib/cxxll/java_class.cpp:163-180 | on any accepted buffer a lookup yields the very bytes of the entry, or the exception that the index or the tag calls for |
| JavaClass.AcceptedClass | lib/cxxll/java_class.cpp:146-161 | on any accepted buffer a lookup of a class goes on to the name that its entry refers to, or ends with the exception that the index or the tag calls for |
| Utf8.WindowIsEnough | lib/cxxll/utf8.cpp:29-35 | the window of 16 octets changes nothing: four suffice |
| Utf8.AcceptsEncoding | lib/cxxll/utf8.cpp:107-211 | every encoding of a scalar value is accepted with its length |
| Utf8.DecodeFirst | lib/cxxll/utf8.cpp:107-211 | what is accepted is the encoding of a scalar value |
| Utf8.ValidIffEncoding | lib/cxxll/utf8.cpp:23-42 | a string is valid if and only if it is the concatenation of encodings of scalar values (sections 3 and 4 of RFC 3629) |
| Utf8.EncodeAllInjective | lib/cxxll/utf8.cpp:107-211 | no string encodes two different texts |
| Utf8.IsValidUtf8 | lib/cxxll/utf8.cpp:23-42 | the loop over the moving window decides validity |
| Utf8.Latin1ToUtf8 | lib/cxxll/utf8.cpp:44-60 | the result is valid and decodes to the input's octets as code points |
| Base16.DecodedEncoded | include/cxxll/base16.hpp:25-94 | decoding gives back what was encoded |
| Base16.EncodedInjective | include/cxxll/base16.hpp:25-39 | distinct byte strings have distinct encodings |
| Base16.EncodedAt | include/cxxll/base16.hpp:25-39 | each byte becomes the digit of its high half and then that of its low half, in lower case |
| Base16.EncodedDecoded | include/cxxll/base16.hpp:56-94 | on lower-case digits, encoding gives back what was decoded |
| Base16.DecodedExactly | include/cxxll/base16.hpp:56-94 | decoding yields bytes exactly if the text spells them with two digits each, in either case |
| Base16.Base16Encode | include/cxxll/base16.hpp:25-39 | the loop computes the encoding |
| Base16.Base16Decode | include/cxxll/base16.hpp:56-94 | the loop decodes, or raises for a character that is no digit or for the last of an odd number of digits, with the offset of that character |
| FileCache.TempIsNotEncoded | lib/cxxll/file_cache.cpp:141-142 | no temporary name is the name of a committed file, or a digest |
| FileCache.TempInjective | lib/cxxll/file_cache.cpp:140-142 | sinks for different digests have different temporary files |
| FileCache.StepKeepsInv | lib/cxxll/file_cache.cpp:105-182 | opening, writing, finishing and destroying any number of sinks, with any failure of the operating system, keeps names and contents in agreement and accounts for every temporary file: it is an open sink's, was there before, or could not be removed |
| FileCache.CommittedStay | lib/cxxll/file_cache.cpp:158-182 | only a sink that passed all checks adds to the committed files, with what it hashed; nothing takes from them or changes another |
| FileCache.FailedFinishChangesNothing | lib/cxxll/file_cache.cpp:158-170 | a `finish` fails if and only if the directory is left as it was |
| FileCache.WhyNotFinished | lib/cxxll/file_cache.cpp:158-170 | `finish` compares the length first, then the digest, and only then can the rename fail |
| FileCache.RunsAreClean | lib/cxxll/file_cache.cpp:105-182 | over any allowed run, committed files are named after their contents and stay; any other file was there before, belongs to an open sink, or is one whose removal failed |
| FileCache.LeftExactlyIfNotRemoved | lib/cxxll/file_cache.cpp:122-132 | when no sink is open, a new temporary file is left if and only if its removal failed and no later sink took it over |
| FileCache.NothingLeaks | lib/cxxll/file_cache.cpp:122-132 | if every removal succeeds, no temporary file is left behind by a sink |
| FileCache.DestroyLeaves | lib/cxxll/file_cache.cpp:122-132 | destroying an unfinished sink leaves its temporary file if and only if the removal fails |
| FileCache.FailedOpenLeaves | lib/cxxll/file_cache.cpp:135-145 | a failed attempt leaves a temporary file if and only if one was there that cannot be removed |
| FileCache.LookupFindsContents | lib/cxxll/file_cache.cpp:62-76 | a lookup finds contents that have the digest asked for, and the length asked for |
| FileCache.FoundExactlyIfStored | lib/cxxll/file_cache.cpp:62-76 | a lookup succeeds if and only if a regular file of that name is there and has the length asked for, if one is |
| FileCache.AddedIsFound | lib/cxxll/file_cache.cpp:62-76 | what has been added is found by its digest, with its length or without |
| FileCache.DigestsInOrder | lib/cxxll/file_cache.cpp:78-97 | digests come in the order of the listing |
| FileCache.LookupFindsType | include/cxxll/file_cache.hpp:33-35 | digest sizes tell the hash functions apart, so the contents have that digest under the type asked for |
| FileCache.DigestsAreCommitted | lib/cxxll/file_cache.cpp:78-97 | where no other file has a hexadecimal name, the digests listed are exactly those of the committed files |
| FileCache.FileCache.constructor | lib/cxxll/file_cache.cpp:43-51 | the root ends with a slash unless it is empty |
| FileCache.FileCache.LookupPath | lib/cxxll/file_cache.cpp:62-76 | the path of the regular file of that digest and length, if there is one |
| FileCache.FileCache.ListDigests | lib/cxxll/file_cache.cpp:78-97 | the loop appends the digests of the decodable names in the order of the listing |
| FileCache.FileCache.OpenSink | lib/cxxll/file_cache.cpp:122-145 | a sink on a truncated temporary file; if that fails, no sink, and the file is removed if the operating system does so |
| FileCache.FileCache.Add | lib/cxxll/file_cache.cpp:184-191 | succeeds exactly if the data have the digest and length asked for and nothing fails; otherwise a temporary file is left exactly if one is there and its removal fails, and nothing else changes |
| FileCache.AddSink.Write | lib/cxxll/file_cache.cpp:151-156 | the file grows before the hash does; a failure leaves the hash and the length alone |
| FileCache.AddSink.Finish | lib/cxxll/file_cache.cpp:158-182 | length, then digest, then the rename, as specified, with the new directory and the sink's new state |
| FileCache.AddSink.Destroy | lib/cxxll/file_cache.cpp:122-132 | tries to remove the temporary file unless it got its final name; a failure leaves it and is not reported |
| Consolidator.OlderIrreflexive | lib/cxxll/rpm_evr.cpp:33-48 | no version is older than itself |
| Consolidator.VersionDecides | lib/cxxll/rpm_evr.cpp:36-42 | with equal epochs a difference of versions decides whatever the releases are, and only then the releases |
| Consolidator.DecimalEpochsCompareAsNumbers | lib/cxxll/rpm_evr.cpp:43-46 | comparing lengths first orders decimal epochs as numbers |
| Consolidator.OlderTransitive | lib/cxxll/rpm_evr.cpp:33-48 | being older is transitive |
| Consolidator.TiesTransitive | lib/cxxll/rpm_evr.cpp:33-48 | so is not being older: the order is a strict weak order |
| Consolidator.EpochsCompareModulo256 | include/cxxll/package_set_consolidator.hpp:78 | since an integer is assigned to a string, epochs are compared modulo 256 |
| Consolidator.EpochsAgreeExactly | include/cxxll/package_set_consolidator.hpp:78 | the order on two packages is the numeric one if and only if their epochs lie in one block of 256, or the remainders differ and order like the epochs, or the remainders agree and the versions order like the epochs |
| Consolidator.MissingEpochOutranks | lib/cxxll/rpm_parser.cpp:203-206 | a package without an epoch has epoch -1, and so outranks every epoch from 0 to 254 |
| Consolidator.LargeEpochsAreMisjudged | include/cxxll/package_set_consolidator.hpp:78 | an input: of one and the same version, an epoch of 256 counts as older than an epoch of 1 |
| Consolidator.NewestStep | include/cxxll/package_set_consolidator.hpp:87-92 | another call replaces the newest exactly when the newest is older |
| Consolidator.NewestUnique | include/cxxll/package_set_consolidator.hpp:73-93 | there is one earliest call among those of maximal version |
| Consolidator.PackageSetConsolidator.Add | include/cxxll/package_set_consolidator.hpp:73-93 | keeps, for exactly the pairs that were added, the earliest value of maximal version |
| Consolidator.PackageSetConsolidator.Values | include/cxxll/package_set_consolidator.hpp:95-109 | one datum for every pair that was added, ordered by architecture and name: the earliest of maximal version |
| Consolidator.HighestVersionIsKept | include/cxxll/package_set_consolidator.hpp:73-109 | with equal epochs, the package of highest version, and among those of highest release, is among the values whenever it was added |
| Consolidator.ValuesUnique | include/cxxll/package_set_consolidator.hpp:95-109 | the calls determine the values |
| Consolidator.OrderedIsDistinct | include/cxxll/package_set_consolidator.hpp:100-107 | no pair comes twice |
| Consolidator.OneBlockIsInOrder | include/cxxll/package_set_consolidator.hpp:78 | epochs of one block of 256, such as those from 0 to 255, have remainders that order as they do |
| Consolidator.OutOfOrderIsMisjudged | include/cxxll/package_set_consolidator.hpp:73-93 | for any two epochs whose remainders do not order as they do, there are calls of `add` after which the newest is not the newest by number |
| Consolidator.NewestByNumberExactly | include/cxxll/package_set_consolidator.hpp:73-93 | for a set of epochs, the newest is the newest by number over all calls with these epochs if and only if their remainders order as they do |
| Consolidator.ValuesAreNumericallyNewest | include/cxxll/package_set_consolidator.hpp:95-109 | if the epochs added for each pair of architecture and name order like their remainders, as within one block of 256, the values are the newest by number |
| Asdl.ValidIdentifier | lib/cxxll/asdl/identifier.cpp:54-67 | the index loop accepts exactly a letter followed by letters, digits and underscores |
| Asdl.ValidType | lib/cxxll/asdl/identifier.cpp:69-73 | an identifier that begins with a lower-case letter |
| Asdl.ValidConstructorName | lib/cxxll/asdl/identifier.cpp:75-79 | an identifier that begins with an upper-case letter |
| Asdl.Stream.PrintField | lib/cxxll/asdl/field.cpp:30-38 | type, cardinality, and the name if there is one |
| Asdl.Stream.PrintFields | lib/cxxll/asdl/field.cpp:40-54 | the loop with its flag prints the fields separated by commas |
| Asdl.Stream.PrintConstructor | lib/cxxll/asdl/constructor.cpp:29-37 | the name, and the fields in parentheses if there are any |
| Asdl.Stream.PrintConstructors | lib/cxxll/asdl/constructor.cpp:39-53 | the loop with its flag prints the constructors separated by bars |
| Asdl.Stream.PrintDeclarator | lib/cxxll/asdl/declarator.cpp:29-41 | a product without constructors, otherwise a sum with its attributes if there are any |
| Asdl.Stream.PrintDefinition | lib/cxxll/asdl/definition.cpp:29-33 | the name, an equals sign and the declarator |
| Asdl.PrintedField | lib/cxxll/asdl/field.cpp:30-38 | the very text of a field of each cardinality, with a name and without |
| Asdl.PrintedConstructor | lib/cxxll/asdl/constructor.cpp:29-37 | the very text of a constructor with up to two fields |
| Asdl.PrintedSum | lib/cxxll/asdl/definition.cpp:29-33 | the very text of a sum, with attributes and without |
| Asdl.PrintedProduct | lib/cxxll/asdl/definition.cpp:29-33 | the very text of a product |
| Asdl.Stream.PrintCardinality | lib/cxxll/asdl/cardinality.cpp:22-34 | nothing, a question mark or an asterisk |
| AsdlParser.FieldRead | lib/cxxll/asdl/field.cpp:30-38 | a printed field is read back, in front of a comma or a parenthesis |
| AsdlParser.FieldsParsed | lib/cxxll/asdl/field.cpp:40-54 | what is read as fields is the printed text of valid fields |
| AsdlParser.ConstructorRead | lib/cxxll/asdl/constructor.cpp:29-37 | a printed constructor is read back |
| AsdlParser.ConstructorsRead | lib/cxxll/asdl/constructor.cpp:39-53 | so are several |
| AsdlParser.DeclaratorRead | lib/cxxll/asdl/declarator.cpp:29-41 | a printed declarator is read back, sums and products being told apart by the first character |
| AsdlParser.DefinitionRoundTrip | lib/cxxll/asdl/definition.cpp:29-33 | the parser returns a definition for a text if and only if the definition is valid and the text is what is printed for it |
| AsdlParser.PrintingIsInjective | lib/cxxll/asdl/definition.cpp:29-33 | different valid definitions have different texts |
| AsdlParser.InvalidNamesCollide | lib/cxxll/asdl/identifier.cpp:54-79 | without valid identifiers the texts of different definitions can coincide |

## Left out

- RpmParser.RpmParser.ReadFile: after an exception the contract fixes the outcome but not which marks were set on the way, as a run ends there.
- RpmAcceptance.ReadExactlyIfWellFormed: assumes that names are unique in the header; without that, the once-only reporting of each name still holds.
- SqlSplitter.SplitRoundTrip: ordinary text is ASCII, since the code compares a plain `char` with a space, whose sign is up to the platform.
- Minidom.BuildLoop: works on a stack of values; the original attaches a child to its parent when the child opens and shares it by pointer, the model when the child closes.
- FileCache.RunsAreClean: assumes at most one open sink per digest, which advisory locks provide, and that a sink is only destroyed after a failure.
- Consolidator.PackageSetConsolidator.constructor: requires `rpmvercmp` to be a total preorder, which librpm promises.
- Downloader.StepKeepsInv: an exception in a helper other than those `download_url` catches, and in the consumer's `rpm_load`, is not modelled.
- QueueMonitor.StepKeepsInv: `signal` wakes at least one sleeper if there is any; fairness between threads is not assumed.
- DownloaderProgress.Terminates: runs that consist of spurious wake-ups for ever are excluded, since nothing bounds their number.
- PostgreSQL access, the temporary table and the upload of the closure, and the callback that can skip the update.
- libelf, zlib, libarchive, NSS, curl and librpm: their results are inputs.
- Opening and decompressing packages, dependencies, scripts, triggers and the other header tags; a short read of the payload counts as the end of the stream.
- XML tokenisation, entity declarations, malformed documents and their error contexts.
- `strtoull` is a parameter; the parsing of numbers in attributes is not modelled.
- `has_signature` of class files, fields, methods and attributes behind the interfaces.
- Advisory locks, thread creation, `fsync`, file modes and timing.
- The debug counter `elements` of the closure, and the widths of `int` in the path rating.
- Symbolic links and other special files in the cache directory: an entry is a regular file or a directory.
- Command-line drivers, options and message printing.
