# Scriptorium: a verified model

Scriptorium runs commands in throw-away containers for many tenants, each with a workspace directory on the host, and
moves files between workspaces, clients and object storage. This project models the parts of it that compute or keep
something: the calendar and the object keys, the multipart upload, the exec calls with their cleanup and their permits,
the archive handling with import and export, and path resolution with the file listing. It proves what those parts
promise, for all inputs and all runs.

How the model is laid out, bottom up:

- `Basics`, `Text`: results, bytes, concatenation; splitting, joining and number formatting of strings.
- `Calendar`, `ObjectKey`: the date computation and the keys built from it (`src/oss.rs`).
- `FileTree`: the filesystem as a map from absolute paths to directories and files, and the mutable `Disk`.
- `WorkspacePath`, `ListFiles`: path resolution (`src/workspace.rs`) and the directory walk (`src/service/files.rs`).
- `ShortReads`, `Multipart`: files read through arbitrarily short reads, and the upload protocol (`src/oss.rs`).
- `Exec`, `ExecRuns`, `ExecLoops`: the two exec calls as transition systems over every schedule, including streams dropped
  half way, and as the loops they are, each shown to be a run of its machine (`src/runtime.rs`).
- `Permits`, `Containers`, `CallRuns`: the semaphore around any number of concurrent exec calls, each running one of those
  machines, the containers they start, and what every single call can still do among the others (`src/service.rs`,
  `src/config.rs`).
- `Archive`, `Entries`, `Replace`, `Pack`, `TempFiles`: extracting entries, what an archive means whatever its order,
  replacing a directory by an archive, packing one (`src/service/archive.rs`).
- `Transfer`, `ImportRuns`, `Export`: importing, any number of imports, and exporting over message streams
  (`src/service.rs`).

Parts that the code does not decide are parameters or free choices: how many bytes a read returns, whether a read or a
remote call fails, when a deadline falls, which ready source a `select!` takes, the order of directory entries, the clock,
the nonces, SHA-256 (`sha`) and the compression (`encode`, `decode`). Failed reads and fallen deadlines leave a trace, so
contracts say that nothing fails without a cause. A loop of the source is a loop here, a mutated object is a class, and a
call sequence to a remote party is a log that the method extends.

Where the code and its documentation differ, the model follows the code:

- `src/config.rs:189` calls the configured maximum a hard cap on running containers. A call that is over has given its
  permit back, but the container it started may still run. `Containers.CapHoldsWithoutLoose` says exactly when the cap
  holds, `Containers.LeftWithoutKill` which calls leave a container nobody was told to kill, and
  `Containers.ContainersUnbounded` that nothing bounds their number.
- `src/service.rs:510` says the permit is released when the final Finished event is drained; it is released when the
  stream is dropped (`Permits.StreamHoldsUntilDropped`).
- `docs/architecture.md:181` gives 4 as the default number of permits; the code uses 10 (`src/config.rs:202`).
- `docs/architecture.md:156` says a call that times out returns `DeadlineExceeded`; the code returns an answer with
  exit code -1 and `timed_out` set.
- `docs/architecture.md:157` says a container is killed and removed whenever a caller drops its stream before Finished; a
  stream dropped before its first poll has no guard yet, and its container runs on (`Containers.LeftWithoutKill`,
  `Containers.ContainersUnbounded`).
- `src/service/archive.rs:21` says the guard keeps an error from leaking a temporary archive; an archive whose packing
  fails has no guard yet and stays (`Pack.TarGzIntoTemp`, `Export.PrepareExport`).
- The comment at `src/oss.rs:439` puts 1 777 708 800 seconds on 2026-04-22; it is 2026-05-02 (`Calendar.SecondOfMay2026`).
- The part counter at `src/oss.rs:293` is a signed 32-bit number; the model is of a release build, in which it wraps (a
  debug build panics instead). Parts are numbered from 1 upwards up to 2^31 - 1 of them, and up to 2^32 the assembled
  object is the file, whatever the file; beyond that a later part takes the place of an earlier one, and the object is
  the file only when the two are alike (`Multipart.UploadedObjectIsFile`, `Multipart.IntactUpTo`).
- A cleaned path is coarser than a walk: it steps over a missing name (`WorkspacePath.CleanOutrunsWalk`). A path that can
  be walked is accepted exactly when the walk ends inside the workspace.
- Tenant ids are sanitised, not validated, so two tenants can share a key (`ObjectKey.TenantsCanShareKeys`); two
  workspaces cannot.
- A compressed single file is not unwrapped when it is extracted: it comes back inside a directory
  (`Pack.PackedFileStaysWrapped`).
- An import that has created its staging file leaves it behind if and only if a message was ill-formed or the archive was
  refused; a missing encoding removes it. The partly filled extraction root stays exactly when the archive was refused
  (`Transfer.ImportWorkspaceObject`).

## Model

| member | source | states |
|---|---|---|
| `Calendar.CivilIsDayCount` | src/oss.rs:403-416 | For every timestamp the division formula gives the date reached by counting days one at a time from 1970-01-01 under the Gregorian leap-year rule |
| `Calendar.CivilStep` | src/oss.rs:403-416 | One more day moves the computed date to the next calendar day, across months, leap days, centuries and 400-year eras |
| `Calendar.IntermediatesInRange` | src/oss.rs:406-414 | Every intermediate is in range: day of era 0..146096, year of era 0..399, day of year 0..365, month index 0..11; the date is a valid one |
| `Calendar.CivilInverse` | src/oss.rs:403-416 | An independent days-from-date function undoes the conversion, and the conversion gives a date exactly for that date's own day number |
| `Calendar.DaysFromDateAfter` | src/oss.rs:403-416 | Counting n days forward and numbering the date reached gives n |
| `Calendar.DateOrder` | src/oss.rs:403-416 | Valid dates are ordered exactly as their day numbers, and distinct dates have distinct numbers |
| `Calendar.DateTextSorts` | src/oss.rs:403-416 | Before the year 10000 the text has 10 characters and sorts exactly as the timestamps' days |
| `Calendar.DateTextSortsUpTo` | src/oss.rs:415 | The texts of all timestamps up to a bound sort as their days if and only if the bound lies before the year 10000 |
| `Calendar.DateTextReads` | src/oss.rs:403-416 | Read back digit by digit, the text is the year, month and day reached by counting, with dashes between and two digits each for month and day |
| `Calendar.SecondOfMay2026` | src/oss.rs:438-443 | The timestamp in the unit test is 2026-05-02 |
| `ObjectKey.KeyRoundTrip` | src/oss.rs:94-108 | After the prefix every key splits into tenant, workspace, date, eight hex digits and base name, and parsing recovers the sanitised parts |
| `ObjectKey.KeyTells` | src/oss.rs:94-108 | A parsed key tells the names with every character outside the safe ones replaced and no other, the day counted to at the clock's seconds, and the number that is the low 32 bits of its nanoseconds |
| `ObjectKey.KeysCoincide` | src/oss.rs:94-108 | Two keys are equal if and only if all sanitised parts, the date and the low 32 bits of the nonce are |
| `ObjectKey.WorkspacesNeverShareKeys` | src/oss.rs:94-108 | Different valid workspace ids never share a key, whatever the rest |
| `ObjectKey.TenantsCanShareKeys` | src/oss.rs:104 | Two different tenant ids can produce the same key |
| `ObjectKey.SanitizeKeepsSegments` | src/oss.rs:418-431 | Sanitising yields a safe nonempty segment, changes nothing exactly on safe ones, and is idempotent |
| `ObjectKey.SanitizeKeepsWorkspaceIds` | src/oss.rs:418-431 | Sanitising is the identity on validated workspace ids |
| `Multipart.FillBuffer` | src/oss.rs:296-304 | For every pattern of short reads the buffer ends up full or the file is at its end, holding the next bytes in order; it fails if and only if a read does |
| `Multipart.StreamParts` | src/oss.rs:280-339 | On success the parts are the file cut at the part size, numbered in order, with the digest of the whole file; on failure a beginning of those parts was stored, followed by one refused part unless it was a read that failed |
| `Multipart.ChunksFlatten` | src/oss.rs:287-338 | The parts concatenate to the file |
| `Multipart.ChunkSizes` | src/oss.rs:287-338 | There are ceil(size / part size) parts; all but the last have exactly the part size and none is empty |
| `Multipart.PartNumbersCount` | src/oss.rs:293 | Parts are numbered 1, 2, 3, ... if and only if there are at most 2^31 - 1 |
| `Multipart.PartNumbersDistinct` | src/oss.rs:293 | Part numbers are distinct if and only if there are at most 2^32 parts |
| `Multipart.UploadFileMultipart` | src/oss.rs:191-278 | Every run issues one create, then parts, then a complete or an abort, in one of the listed shapes; success returns the digest of the file |
| `Multipart.MultipartSafety` | src/oss.rs:198-278 | With an id, success means a successful complete and no abort, failure exactly one abort; every call names this upload and no part follows a complete or an abort; without an id nothing else is called |
| `Multipart.MultipartFailsForCause` | src/oss.rs:198-278 | A multipart upload succeeds if and only if no read failed and no call was refused |
| `Multipart.UploadedObjectIsFile` | src/oss.rs:240-252 | For every file and part size, the parts listed on completion assemble to the file if and only if parts that share a number carry the same bytes |
| `Multipart.SuccessStoresFile` | src/oss.rs:191-278 | A successful run ends in a successful completion, and what its parts assemble to is the file under exactly that condition |
| `Multipart.IntactUpTo` | src/oss.rs:293-329 | For every k, all files of k parts are assembled intact if and only if k is at most 2^32 |
| `Multipart.MultipartHasParts` | src/oss.rs:128 | A file strictly above the threshold has at least one part, and after the clamp all parts but the last have at least 5 MiB |
| `Multipart.PartsAsConfigured` | src/oss.rs:74 | In every multipart run, finished or not, a part that another follows has exactly the configured number of bytes, raised to 5 MiB, and none is empty or larger |
| `Multipart.UploadFileSingle` | src/oss.rs:150-184 | One put of the whole file, with the digest of the whole file; nothing is put when the read fails |
| `Multipart.UploadFile` | src/oss.rs:118-145 | Strictly above the threshold the run is a multipart run, in which every part but the last has exactly the configured size, or 5 MiB if less is configured; otherwise it is one put, and no call is issued only when the file could not be looked up or read; it succeeds if and only if no read failed and no call was refused, with the size and digest of the file; an error names the read or the call that failed, and a refused part by its number |
| `ShortReads.Sha256File` | src/service/archive.rs:87-99 | The block-wise digest is the digest of the whole file for every fragmentation of the reads, and is missing if and only if a read failed |
| `ExecLoops.ExecOneshot` | src/runtime.rs:110-167 | For every interleaving the answer is the full output and delivered exit code or, if and only if the deadline fell first, the output so far with -1, timed out, and one kill and removal; a delivered code is answered as it is from -2^31 to 2^31 - 1 and as -1 outside, a missing one as -1; the loop is a run of the one-shot machine |
| `ExecLoops.DrainExecStream` | src/runtime.rs:223-293 | A drained stream is the chunks of the items taken, then one Finished, complete if and only if the deadline did not fall; only a timeout kills and removes, and the guard never fires as well; Finished carries the delivered code as the one-shot answer does; the loop is a run of the generator to its end, with its events and control calls |
| `Exec.ContainerCleanupGuard.Drop` | src/runtime.rs:436-464 | Dropping an armed guard issues one kill and one removal, dropping a disarmed one nothing |
| `Exec.FullAnswerCode` | src/runtime.rs:128-143 | An answer that was not cut has the very code the wait delivered, through its error too, if that fits 32 bits, and -1 otherwise |
| `Exec.StreamCarriesAnswer` | src/runtime.rs:235-292 | The chunks of a drained stream put together are the one-shot answer, full or cut after the same items |
| `Exec.EventGrammar` | src/service.rs:505-534 | A fully drained stream is Started, any number of chunks, exactly one Finished, nothing more |
| `ExecRuns.RunKeeps` | src/runtime.rs:223-293 | Every schedule keeps the generator's invariant: events match the items taken, the exit code is the delivered one, and the control calls fit the phase |
| `ExecRuns.FinishedRun` | src/runtime.rs:240-292 | A run that handed out Finished carries the full answer, or a cut one with -1 and the explicit cleanup; its guard never fired |
| `ExecRuns.StreamAgreesWithOneShot` | src/runtime.rs:117-147 | Any schedule of the stream and any schedule of the one-shot call agree if neither timed out, or if both were cut after the same items |
| `ExecRuns.CleanupAtMostOnce` | src/runtime.rs:267-286 | In every run at most one kill and one removal happen, and guard cleanup and timeout cleanup never both |
| `ExecRuns.DropFiresGuard` | src/runtime.rs:436-464 | A stream dropped at any point cleans up exactly when that is between its first poll and the disarm, and then for the first time |
| `ExecRuns.CutReachable` | src/runtime.rs:242-245 | The deadline can cut the stream after any number of readable items |
| `ExecRuns.FullReachable` | src/runtime.rs:246-265 | The full answer is reached by some schedule |
| `Permits.PermitsOfService` | src/config.rs:200-206 | Configured for k calls, a service has k permits free or held after any steps, and never more running containers of calls that are not over; zero stands for ten |
| `Containers.AllPermitsOut` | src/service.rs:67-76 | All of them can be out at once, each with a running container |
| `Permits.QueueTimeoutsAsConfigured` | src/service.rs:83-92 | Without a queue timeout no call is turned away from the queue, with one any queued call can be |
| `Permits.StartInv` | src/service.rs:67-76 | A service that has just started satisfies the invariant that every later state keeps |
| `Permits.PermitsConserved` | src/service.rs:81-94 | Over any interleaving of calls, each running the one-shot machine or the generator, available permits and those owned by a future or a stream add up to the capacity, and calls that are not over never have more running containers than that |
| `Permits.PermitReturnedOnce` | src/service.rs:169-181 | A call takes at most one permit, and however its future or its stream ends the permit has come back exactly once |
| `Permits.StreamHoldsUntilDropped` | src/service.rs:501-534 | A handed-out stream keeps its permit through every phase, Finished and its own end included; only dropping it gives the permit back |
| `Containers.CapHoldsWithoutLoose` | src/config.rs:188-192 | Running containers stay within the maximum from a state on if and only if no call that is over has left one running or about to be started |
| `Containers.LeftWithoutKill` | src/runtime.rs:85-177 | A container left behind by a call that is over has no kill issued in exactly these cases: the call ended while its start was out, a one-shot call was dropped while collecting, a stream was dropped before its first poll, or the wait delivered no code |
| `Containers.DeliveredCodeMeansEnded` | src/runtime.rs:128-143 | A call of either kind that ends by itself with a delivered exit code leaves nothing running |
| `Containers.EndsWithContainerLeft` | src/runtime.rs:128-143 | Without a delivered code a call of either kind can end by itself, permit back, and leave its container running with no kill issued |
| `Containers.ContainersUnbounded` | src/config.rs:188-192 | Dropping started one-shot calls, or started streams before their first poll, piles up any number of running containers with all permits free and no kill issued |
| `CallRuns.FailureFreesPermit` | src/service.rs:169-181 | A queue timeout, a failure to build the parameters, to create, to attach or to start, or the client going away, at whatever moment, ends the call at once and frees its permit; its container is left as it is |
| `CallRuns.RefusedStartLeavesNothing` | src/runtime.rs:104-105 | A call whose start is refused is over with its permit back and nothing left to run |
| `CallRuns.TimedOutEnds` | src/runtime.rs:148-167 | A timed-out one-shot call ends when its kill and removal have come back, both issued, its permit free |
| `CallRuns.PoolFollowsOneShot` | src/service.rs:169-181 | Among any other calls, a one-shot call follows every schedule its machine has on its own |
| `CallRuns.PoolFollowsStream` | src/service.rs:497-534 | A stream follows every schedule of its generator, drops included, and frees its permit with the drop |
| `CallRuns.OneShotServedInFull` | src/service.rs:169-181 | With a permit free, any output and any wait answer can be served to the full one-shot answer, with as many permits free afterwards |
| `CallRuns.StreamServedInFull` | src/service.rs:497-534 | The same for a stream, whose drop then brings the permit back |
| `WorkspacePath.WalkEndsAtClean` | src/workspace.rs:88-96 | A component-wise walk succeeds if and only if every step is in a directory and the cleaned path exists, and it ends at the cleaned path |
| `WorkspacePath.ResolveAcceptsWalksInside` | src/workspace.rs:88-96 | A walk along the home and then the text, or along the text alone if it begins with a slash, ends at the home or below it if and only if the text is accepted; the answer is where it ended, or the escape error naming the text |
| `WorkspacePath.ResolveFollowsWalkFromHome` | src/workspace.rs:88-96 | The same for a walk that starts at the home, climbing out and coming back included |
| `WorkspacePath.PlainTextsResolve` | src/workspace.rs:91-94 | Names joined by slashes resolve below the home; with a slash in front they are taken from `/` and refused unless they lie at the home or below it |
| `WorkspacePath.IdRefused` | src/workspace.rs:104-116 | An id is refused if and only if it is empty, longer than 128 or has a byte that is no ASCII letter, digit, dash or underscore |
| `WorkspacePath.CleanOutrunsWalk` | src/workspace.rs:88-96 | Cleaning accepts a path through a missing name that no walk can follow |
| `WorkspacePath.WorkspacesNeverNest` | src/workspace.rs:88-115 | Paths accepted for two workspaces never coincide and neither contains the other |
| `WorkspacePath.ResolveRelativeText` | src/workspace.rs:88-96 | The relative text of a path below home resolves to that path |
| `WorkspacePath.RootMustBeClean` | src/workspace.rs:88-96 | A configured root contains `..` if and only if every request is refused |
| `FileTree.MetadataIs` | src/service.rs:383-389 | A lookup finds the node that is there, fails as blocked exactly below a file, and as missing otherwise |
| `ListFiles.CollectFiles` | src/service/files.rs:14-50 | Whatever order directories are read in, the explicit-stack walk reports each listed node once and nothing else, and terminates: a file with its length, a directory with the length the system gives it, its kind, its low twelve mode bits, and the second it was modified, 0 if unknown or before the epoch |
| `ListFiles.ListFiles` | src/service.rs:643-664 | Recursive or not, the reported files are exactly the listing of the resolved base, each described field by field as above, and each reported path resolves back to its entry; a missing base gives an empty listing, a file as base or on the way the not-a-directory error, a bad path its own |
| `ListFiles.ReportedPathResolves` | src/service/files.rs:27-31 | Every listed path lies below the workspace home, so its prefix is always stripped, and the text resolves to the entry |
| `ListFiles.ModifiedUnix` | src/service/files.rs:32-36 | The reported second is never negative and is the real one from the epoch on |
| `Archive.RemovePathIfExists` | src/service/archive.rs:55-67 | A directory with everything in it or a file is gone, a missing name is no error, a file on the way is |
| `Archive.UnsafeEntryRefused` | src/service/archive.rs:119-141 | One entry that begins with a slash, has a `..` among its pieces, is no file or directory or cannot be read rejects the archive, wherever it stands |
| `Entries.AcceptedExactly` | src/service/archive.rs:119-142 | An archive is accepted if and only if no entry is of those and none clash |
| `Archive.UnpackIn` | src/service/archive.rs:141 | Unpacking an entry in a place of the filesystem is unpacking it into the tree there; nothing else changes |
| `Archive.ExtractItems` | src/service/archive.rs:119-142 | Extraction succeeds if and only if every entry is acceptable, and leaves exactly the extracted tree; when it stops it leaves exactly what had been unpacked, and complains of the first entry that cannot be taken, for its own fault; outside the extraction root nothing ever changes |
| `Archive.ExtractedUntilShape` | src/service/archive.rs:119-142 | What an extraction leaves is a tree of proper names wherever it stopped |
| `Entries.ArchiveMeans` | src/service/archive.rs:119-142 | An archive is accepted if and only if all entries are valid and none clash as file and directory, or as file and what lies above another entry; then its tree holds exactly the directories needed and the files named, each with the data of its last entry, whatever the order |
| `Entries.OnlyTree` | src/service/archive.rs:119-142 | That description fixes the tree |
| `Archive.ExtractedShape` | src/service/archive.rs:119-142 | Whatever the entries say, what is extracted is a tree of proper names |
| `Archive.MoveEntries` | src/service/archive.rs:156-160 | Renaming the top-level entries one by one, in any order, moves the whole tree |
| `Replace.InstallExtracted` | src/service/archive.rs:146-161 | A single top-level directory is unwrapped, anything else is moved as it is; the extraction root is gone |
| `Replace.ExtractArchiveAndReplace` | src/service/archive.rs:101-164 | It succeeds if and only if the extraction root is no file and all entries are accepted; then no entry was absolute, held `..` or was of another kind, and the target is the unwrapped tree; otherwise the error names the first entry that cannot be taken, the extraction root holds what had been unpacked and nothing else changed |
| `Replace.ReplacedIs` | src/service/archive.rs:101-164 | After success the target holds exactly the tree, neither temporary name remains, and everything else is as before |
| `Pack.TarGzIntoTemp` | src/service/archive.rs:179-209 | A directory or file is packed under its own name, one entry per node, directories before their contents, unless and only unless a file operation fails; once created, the temporary file is there whether packing succeeded or not |
| `Pack.PackingIsComplete` | src/service/archive.rs:186-204 | Such an archive has an entry for every node and no more |
| `Pack.NodeHasEntry` | src/service/archive.rs:186-204 | Every node at or below the source has an entry in its archive, named by the source's own last name and the path below it, with the node's kind and data |
| `Pack.EntryHasNode` | src/service/archive.rs:186-204 | Every entry of the archive stands for a node in that way |
| `Pack.PackedExtracts` | src/service/archive.rs:119-142 | Extracting a packed tree recreates it below the root name, whatever order it was packed in |
| `Pack.PackThenExtract` | src/service/archive.rs:186-204 | For every directory tree, unwrapping what is extracted from its archive gives the tree back |
| `Pack.PackedFileStaysWrapped` | src/service/archive.rs:194-200 | A packed single file comes back as a directory holding it |
| `Transfer.ReceiveChunks` | src/service.rs:319-342 | The staging file holds exactly the chunks before the first other message; success if and only if all messages are chunks, counting bytes with saturation |
| `Transfer.ReplaceFileFromStaging` | src/service/archive.rs:43-53 | The target becomes the staged file, the staging name is gone, nothing else changes |
| `Transfer.ReplaceDirectoryFromArchive` | src/service/archive.rs:69-85 | The target becomes the unwrapped archive if and only if the archive is accepted; a refused one adds only the partly filled extraction root |
| `Transfer.StageAndInstall` | src/service.rs:312-370 | Staging and installing succeed if and only if all messages are chunks and the encoding accepts the body; the filesystem afterwards is given for every case, and the staging file is left behind if and only if a message was ill-formed or the archive was refused |
| `Transfer.DoImportWorkspaceObject` | src/service.rs:283-371 | The filesystem after an import is a function of what was there and what arrived, in every case, and the answer is as below |
| `Transfer.ImportWorkspaceObject` | src/service.rs:587-593 | An import succeeds if and only if the stream is a header and then chunks, the target resolves and can be reached, and the body is acceptable; the answer counts the bytes up to 2^64 - 1; otherwise every existing node is unchanged and the error is that of the first obstacle: no header, the id, the home, the path, the target's directory, the first message that is no chunk, the missing encoding, the first bad entry; the filesystem is a tree afterwards; it says exactly when the staging file and when the extraction root stay |
| `Transfer.FreshNamesExist` | src/service/archive.rs:35-41 | Whatever the filesystem holds and whatever is sent, there are two temporary names that nobody uses |
| `Transfer.AfterImportShape` | src/service.rs:283-371 | Whatever arrives, accepted or refused, a tree stays a tree |
| `Transfer.RefusedLeaves` | src/service.rs:283-371 | A refused import changes no node that was there |
| `Transfer.RefusedKeepsTarget` | src/service.rs:319-366 | After a refused import the target is what it was |
| `Transfer.ImportedTarget` | src/service.rs:344-359 | After a successful import the target holds exactly the bytes or the tree that was sent |
| `Transfer.ImportedElsewhere` | src/service.rs:306-370 | Outside the target an import only adds missing directories on the way |
| `Transfer.ImportStaysInWorkspace` | src/service.rs:302-310 | An import leaves every other workspace exactly as it was |
| `ImportRuns.ServeRequests` | src/service.rs:587-593 | Any list of imports can be served one after the other; the filesystem stays a tree and ends as their effects in order, and each answer is the verdict on its request |
| `ImportRuns.RunKeepsTree` | src/service.rs:283-371 | However many imports are served, and however they end, the filesystem is a tree |
| `ImportRuns.WorkspacesDoNotInterfere` | src/service.rs:283-371 | After any list of imports, accepted or refused, each workspace holds exactly what its own imports alone would have left there |
| `Transfer.ResolvedNames` | src/workspace.rs:88-96 | Every accepted path consists of proper names, whatever text was sent |
| `Export.PrepareExport` | src/service.rs:373-451 | It succeeds if and only if the path resolves to a file to be sent raw or a directory to be sent as an archive and no file operation fails, packing included; a refusal names its first reason; the basename is the last name of the path, with `.tar.gz` for an archive; size and digest are those of the bytes that will be sent, the file's or the directory's archive; a temporary archive is left unguarded exactly when packing failed after its creation |
| `Export.StreamPayload` | src/service.rs:619-633 | Chunks are nonempty, at most 64 KiB, always a beginning of the payload, and all of it if and only if no read failed |
| `Export.ExportStream` | src/service.rs:614-636 | However the stream ends, the temporary archive is gone afterwards |
| `TempFiles.TempFileGuard.Drop` | src/service/archive.rs:26-30 | Dropping the guard removes its file and nothing else |
| `Export.FileRoundTrip` | src/service.rs:614-634 | A file exported in any chunks and imported in any other chunks arrives byte for byte, with its length reported |
| `Export.DirectoryRoundTrip` | src/service.rs:407-425 | A directory exported and imported again is the same tree at the target, if decompressing undoes compressing for the archives of that directory |
| `Export.ExportAndImport` | src/service.rs:283-451 | Exporting one path and importing what arrives at another succeeds if and only if the export is not refused, no file operation fails and the target can be reached; then the filesystem is the one with the exported payload imported, the target holds what the source held, and the count is the payload's; a failed copy changes nothing that existed |

## Left out

- Multipart.UploadFile: the outer upload timeout (`src/oss.rs:137`) is not modelled; a run it cuts can leave an upload open. The file is taken to be unchanged between its metadata and its last read.
- Multipart.IntactUpTo: the store's own limits on part numbers are not modelled, nor the panic of a debug build when the counter overflows.
- ExecRuns.DropFiresGuard: for a stream dropped before its first poll, or while the timeout path awaits its kill or removal, nothing is promised for its container beyond what `Containers.LeftWithoutKill` says; a control call counts as issued once it is sent.
- Permits.PermitsConserved: the semaphore is a transition system, its fair queue is not modelled; which queued call is admitted next is free, and so is when the daemon starts or ends a process.
- Replace.ExtractArchiveAndReplace: no I/O faults in the middle of the replacement (a failing rename after the old target was removed loses it), and fresh temporary names are assumed.
- Transfer.ImportWorkspaceObject: no I/O faults while staging; the nanosecond names are taken to be unused.
- ListFiles.ListFiles: names are valid UTF-8, what the system says of a node beside its content is a parameter (`Stat`), no directory fails to be read, and the tree does not change during the walk.
- WorkspacePath.ResolvePath: paths are text without NUL bytes, the configured root is absolute and clean (`src/config.rs:258`), and there are no symbolic links.
- Source form: the inner loops of `stream_parts` and `collect_files` and the select loop are methods of their own (`FillBuffer`, `ReadEntries`, `SelectLoop`, `TakeExit`, `TakeNext`), as are the parts of the import and of the export; read buffers are arrays, the output of `read_dir` is a set taken in any order.
- The gzip and tar formats, SHA-256 and the order in which `append_dir_all` reads a directory: library code, taken as unknown functions and free choices; entries of old tar headers that name a directory through a trailing slash are not told apart, and a file is taken to be packed as a regular entry: should the tar library write a file with holes as a sparse entry, the extraction would refuse that archive.
- Export.ExportStream: a client that drops the stream half way is not modelled; the guard is dropped with the stream then too.
- `do_upload`, `src/fetch.rs`, Docker, object storage and HTTP themselves, content types, labels, presigned URLs.
- Ownership and permissions of the workspace home, deletion of workspaces, configuration loading, tracing, tool descriptions and routing, Health.
