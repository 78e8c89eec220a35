# Durable record queue and its reconciliation with a central store

This Dafny project models the part of `time-tracking-screenshot` that
moves records off an endpoint and stores them on a central server.

- **The local record store** (`src/storage_manager.py`) has two SQLite
  tables, `events` and `screenshots`.
  - Every row has an `AUTOINCREMENT` id, a capture time, a payload and a
    `synced` flag.
  - Rows are appended unsynced and listed in capped batches.
  - Rows are flagged synced by id.
  - A row is deleted only when it is both synced and older than
    `MAX_LOCAL_DAYS`.
  - Deleting a screenshot row also removes its file, on a best-effort
    basis.
- **The two sync drivers** consume the store under different commit rules.
  - The LAN driver (`client/network_sync.py`) packs one archive per cycle.
    On a status of exactly 200 it flags every fetched id.
  - The cloud driver (`src/firebase_sync.py`) uploads the events as one
    JSON file, then uploads the screenshots one by one. It flags only what
    went up.
  - Both run on Windows: every client path is built from `%APPDATA%`
    (`src/config.py:19-21`). So `os.path.basename` there is `ntpath`'s. It
    cuts after the last `\` or `/`, and after a drive such as `C:`.
- **The server's HTTP layer** (`server/file_receiver.py`) handles the
  requests.
  - It checks the allow-list, then the token, then that a file part with a
    name is present. Only then does it store the archive.
  - `/stats`, `/` and `/cleanup` are guarded by the token.
- **The server's storage organizer** (`server/storage_handler.py`) does
  four things:
  - sanitizes the computer id;
  - sorts uploads into `<root>/<id>/<YYYY-MM-DD>`;
  - extracts the archive members that survive POSIX `normpath`;
  - runs the retention sweep over date folders, and reports file counts and
    sizes.

Modules, in dependency order:

- `Common`: options, bytes, archive entries, `split`/`join`, and Windows' `basename`.
- `Dates`:
  - `strftime` and `strptime` with `%Y-%m-%d`;
  - calendar validity;
  - day ordinals.
- `Json`:
  - `json.dumps` with `ensure_ascii`, and `json.loads`;
  - the round trip between them.
- `LocalStore`: tables as row sequences, and the class `StorageManager`.
- `NetworkSync`: the archive, the success rule, one cycle, and the class
  `NetworkSync`.
- `FirebaseSync`: the bucket, the upload rules, and the class
  `FirebaseSync`.
- `Paths`: the sanitizer and `normpath`.
- `ServerTree`: the server's files as a map from path components to a
  folder or a file, and `os.makedirs`.
- `Extraction`:
  - the per-member decision of `save_upload`;
  - the extraction pass;
  - confinement and re-extraction.
- `Retention`: the sweep of `cleanup_old_data` and its properties.
- `Inventory`: what `get_statistics` counts.
- `StorageHandling`: the class `StorageHandler`, with its loops.
- `FileReceiving`: the guard chain and the class `FileReceiver`.

Times are integers: seconds, on the proleptic Gregorian ordinal scale
that `Dates` defines. Each of these is a parameter of the operation that
reads it:

- the clock;
- the outcome of the HTTP post;
- the files that cannot be read or removed;
- the remote keys the bucket refuses;
- whether the LAN driver's `tempfile.mkdtemp()` raises;
- whether writing the temporary upload file fails.

The SQLite tables are sequences of rows in id order. That is the order a
table scan returns them in. The source's `SELECT … LIMIT` has no
`ORDER BY`, so this order is assumed, not promised by the code. Under that
assumption, every listing comes in ascending id order
(`LocalStore.UnsyncedAscending`).

The server's allow-list is modelled as the code writes it. It compares the
text before `/` of each entry with the start of the client's address. It
does not test CIDR containment. Proper network-range matching was intended
as the design, but the model follows the code.
`FileReceiving.CidrEntryRejectsMember` shows the difference:
`192.168.1.0/24` does not admit `192.168.1.5`.

An id that sanitizes to the empty string has a consequence:

- its uploads land in `<root>/<YYYY-MM-DD>` directly;
- the sweep then treats that date folder as a computer folder;
- the sweep only removes the date-named folders inside it;
- so those uploads are kept until the folder holds nothing but expired
  date folders.

The model keeps this behaviour (`Extraction.ComputerFolder`).

## Model

| member | source | states |
|---|---|---|
| Common.LastSegmentSpec | client/network_sync.py:63 | the text after the last separator is the longest suffix of the path without `\` or `/` |
| Common.BasenameSpec | client/network_sync.py:63 | Windows' basename holds no separator and is everything after the last `\` or `/` of the path once a drive such as `C:` is removed |
| Common.BasenameOfJoin | src/screenshot_manager.py:24-26 | the basename of a path joined from a folder and a separator-free file name is that file name, whichever separator joins them |
| Common.DriveRelativeBasename | client/network_sync.py:63 | the basename of a drive-relative path such as `C:shot.jpg` is the name without its drive |
| Dates.Parse | server/storage_handler.py:86 | a folder name that `strptime('%Y-%m-%d')` accepts always denotes a real calendar date (month 1–12, day within its month, Gregorian leap years) |
| Dates.ParseFormat | server/storage_handler.py:23 | reading back the `%Y-%m-%d` text of any valid date gives that date: the sweep recognises every folder `save_upload` creates |
| Dates.FormatIsSegment | server/storage_handler.py:23-24 | the date text is ten characters, contains no `/`, and is neither `.` nor `..`, so the date folder is exactly one level below the computer folder |
| Dates.OrdinalMonotone | server/storage_handler.py:87 | comparing day ordinals agrees with calendar order in both directions, and equal ordinals mean equal dates |
| Json.RoundTrip | src/storage_manager.py:52-91 | `json.loads` of the text `json.dumps` wrote gives back exactly the logged value, whether it is `null`, a boolean, an integer, a string, an array or an object |
| Json.StringRoundTrip | src/storage_manager.py:52 | any string, with every escape `ensure_ascii` produces (named escapes, `\uXXXX`, surrogate pairs), decodes back to itself |
| Json.NumberRoundTrip | src/storage_manager.py:52 | every integer, negative ones included, decodes back from its text when a delimiter follows |
| Json.EncodePrintable | src/firebase_sync.py:79 | the encoded text of every value is printable ASCII |
| Json.EncodeBytes | src/firebase_sync.py:78-79 | the bytes of the events file decode back to the value written into it |
| LocalStore.Unsynced | src/storage_manager.py:82-85 | a listing holds at most `limit` rows, and each one is an unsynced row of the table |
| LocalStore.UnsyncedLength | src/storage_manager.py:82-85 | a listing holds exactly the smaller of `limit` and the number of unsynced rows |
| LocalStore.UnsyncedComplete | src/storage_manager.py:82-85 | a listing shorter than `limit` holds every unsynced row |
| LocalStore.UnsyncedAscending | src/storage_manager.py:82-85 | the rows of a listing come in strictly ascending id order |
| LocalStore.UnsyncedTable | src/storage_manager.py:82-85 | a listing drawn from a well-formed table is itself a well-formed table: ids within the allocated range, strictly ascending |
| LocalStore.UnsyncedOldestFirst | src/storage_manager.py:83 | an unsynced row left out of a listing has a larger id than every row in it |
| LocalStore.AppendKeepsTable | src/storage_manager.py:24 | appending under the next id keeps ids strictly increasing and bounded by the sequence counter; the new id is not that of any existing row |
| LocalStore.Mark | src/storage_manager.py:121-125 | same rows in the same order with id, time and payload unchanged; a row is synced afterwards iff it was before or its id is listed |
| LocalStore.MarkNothing | src/storage_manager.py:115-116 | marking an empty id list changes nothing |
| LocalStore.MarkIdempotent | src/storage_manager.py:121-125 | marking the same ids twice is the same as marking them once |
| LocalStore.MarkedNeverListed | src/storage_manager.py:121-125 | after marking, no later listing returns any of the marked ids |
| LocalStore.MarkKeepsTable | src/storage_manager.py:121-125 | marking keeps ids strictly increasing and bounded by the counter |
| LocalStore.Evict | src/storage_manager.py:170-171 | the rows kept are exactly those that are not both synced and older than the cutoff; unsynced rows survive whatever their age |
| LocalStore.EvictKeepsBatch | src/storage_manager.py:170-171 | eviction never changes what the next listing returns |
| LocalStore.EvictKeepsTable | src/storage_manager.py:170-171 | eviction keeps ids strictly increasing and bounded by the counter |
| LocalStore.EvictIdempotent | src/storage_manager.py:170-171 | evicting again with the same cutoff removes nothing more |
| LocalStore.ExpiredPaths | src/storage_manager.py:155-159 | a path is selected iff some screenshot row with that path is synced and older than the cutoff |
| LocalStore.StorageManager.constructor | src/storage_manager.py:16-44 | a fresh database has both tables empty and both sequences at 0 |
| LocalStore.StorageManager.LogEvent | src/storage_manager.py:46-60 | appends one unsynced event row under the next id, storing the JSON text of the details; the screenshots table is unchanged |
| LocalStore.StorageManager.LogScreenshot | src/storage_manager.py:62-75 | appends one unsynced screenshot row under the next id; the events table is unchanged |
| LocalStore.StorageManager.GetUnsyncedEvents | src/storage_manager.py:77-93 | returns the listing, in order, with each row's details decoded back to the value it was logged with |
| LocalStore.StorageManager.GetUnsyncedScreenshots | src/storage_manager.py:95-111 | returns the listing of the screenshots table, in order |
| LocalStore.StorageManager.MarkEventsSynced | src/storage_manager.py:113-128 | the events table becomes `Mark(old, ids)`; the other table and the counters are unchanged |
| LocalStore.StorageManager.MarkScreenshotsSynced | src/storage_manager.py:130-145 | the screenshots table becomes `Mark(old, ids)`; the other table and the counters are unchanged |
| LocalStore.StorageManager.CleanupOldData | src/storage_manager.py:147-174 | both tables are evicted at `now - MAX_LOCAL_DAYS`; exactly the expired rows' files that can be removed disappear; a failed removal does not stop its row being deleted |
| NetworkSync.ShotEntriesExact | client/network_sync.py:59-64 | every screenshot member is `screenshots/<basename>` of a listed screenshot whose file exists, with Windows' basename, holding that file's bytes; every such screenshot has its member |
| NetworkSync.ShotEntryOfSavedPath | client/network_sync.py:63-64 | a screenshot saved as `os.path.join(folder, filename)` travels as `screenshots/<filename>`, whatever the folder |
| NetworkSync.ShotEntriesCount | client/network_sync.py:59-64 | there is one screenshot member per listed screenshot whose file exists; missing files are omitted |
| NetworkSync.PackageManifest | client/network_sync.py:54-57 | the archive holds `events_<stamp>.json` iff there are events, and that member decodes back to the listed events |
| NetworkSync.UploadRule | client/network_sync.py:77-115 | `upload_data` succeeds iff there is something to send, every existing listed file could be packed, and the server answered exactly 200 |
| NetworkSync.MarkBatchExact | client/network_sync.py:136-142 | marking the fetched ids flags exactly the fetched rows |
| NetworkSync.CycleKeepsUnsent | client/network_sync.py:129-145 | no record is lost: an unsynced row survives a cycle, still unsynced, unless it was fetched and the upload succeeded |
| NetworkSync.CycleCommitsBatch | client/network_sync.py:134-145 | after a successful upload every fetched row is flagged, and it is kept unless it is also past the retention window |
| NetworkSync.FailedCycleRetries | client/network_sync.py:132-145 | after a failed upload the next cycle fetches the same batch |
| NetworkSync.MissingFileCommitted | client/network_sync.py:140-142 | a fetched screenshot whose file vanished is flagged synced on success, although the archive carried nothing for it |
| NetworkSync.NetworkSync.constructor | client/network_sync.py:20-25 | the driver starts stopped, bound to its store and host name |
| NetworkSync.NetworkSync.CreateZipPackage | client/network_sync.py:45-75 | returns the manifest and the screenshot members in list order, or None when an existing file cannot be read |
| NetworkSync.NetworkSync.UploadData | client/network_sync.py:77-122 | returns the success rule of `UploadRule` |
| NetworkSync.NetworkSync.SyncCycle | client/network_sync.py:127-145 | fetches both batches; if there is something to send and `mkdtemp` raises, changes nothing and reports failure; otherwise flags exactly their ids on success, runs the local cleanup whatever the upload's result, and reports whether the upload succeeded |
| NetworkSync.NetworkSync.CommitFetched | client/network_sync.py:136-142 | flags exactly the fetched ids of both tables |
| NetworkSync.NetworkSync.Start | client/network_sync.py:154-161 | the driver is running afterwards, and a worker is spawned iff it was not running already |
| FirebaseSync.UploadedIds | src/firebase_sync.py:101-113 | an id is collected iff a listed screenshot with that id has an existing file and its upload was accepted |
| FirebaseSync.BlobsAfterExact | src/firebase_sync.py:102-113 | the loop writes only `screenshots/<basename>` keys of uploaded screenshots, with Windows' basename, each holding the bytes of one such file; every uploaded screenshot's key is present; no key is lost |
| FirebaseSync.ShotKeyOfSavedPath | src/firebase_sync.py:108-109 | a screenshot saved as `os.path.join(folder, filename)` is stored under `screenshots/<filename>`, whatever the folder |
| FirebaseSync.ScreenshotCommitExact | src/firebase_sync.py:94-117 | `upload_screenshots` flags exactly the fetched rows whose upload succeeded; missing or refused files stay unsynced |
| FirebaseSync.FirebaseSync.constructor | src/firebase_sync.py:20-49 | the driver is initialised iff a bucket was obtained, and starts stopped |
| FirebaseSync.FirebaseSync.UploadFile | src/firebase_sync.py:51-61 | succeeds iff the driver is initialised with a bucket, the local file exists and the key is accepted; only then the key holds the file's bytes |
| FirebaseSync.FirebaseSync.UploadEvents | src/firebase_sync.py:63-92 | nothing changes when uninitialised or when there are no unsynced events; otherwise the batch is written to the events file and uploaded under `events/<file>`; the ids are flagged iff that upload succeeds; the local file is removed only after a successful upload |
| FirebaseSync.FirebaseSync.UploadScreenshots | src/firebase_sync.py:94-117 | when initialised with a bucket, flags exactly the uploaded ids and writes their blobs; otherwise nothing changes; events are untouched |
| FirebaseSync.FirebaseSync.UploadEach | src/firebase_sync.py:101-113 | collects `UploadedIds` and leaves the bucket at `BlobsAfter` |
| FirebaseSync.FirebaseSync.Start | src/firebase_sync.py:135-142 | the driver is running afterwards, and a worker is spawned iff it was not running already |
| Paths.SafeId | server/storage_handler.py:18 | the sanitized id contains only ASCII letters, digits, `-` and `_`, and is no longer than the input |
| Paths.SafeIdConcat | server/storage_handler.py:18 | sanitizing filters character by character: it distributes over concatenation |
| Paths.SafeIdKeepsSafe | server/storage_handler.py:18 | an id made only of safe characters is unchanged |
| Paths.SafeIdIdempotent | server/storage_handler.py:18 | sanitizing twice equals sanitizing once |
| Paths.SafeIdIsSegment | server/storage_handler.py:18-19 | a non-empty sanitized id is a single path segment: no `/`, and neither `.` nor `..` |
| Paths.NormCompsNormal | server/storage_handler.py:48 | after `normpath` no component is empty or `.`, no component holds `/`, and `..` occurs only as a leading run (never when rooted) |
| Paths.RootedStaysRooted | server/storage_handler.py:48-49 | an absolute name normalizes to text starting with `/`, so it is skipped |
| Paths.ParentFirstStaysParent | server/storage_handler.py:48-49 | a relative name whose first normalized component is `..` normalizes to text starting with `..`, so it is skipped |
| Paths.KeptMember | server/storage_handler.py:48-53 | a kept member that does not normalize to `.` is relative, its components are plain segments, and its text splits back into them |
| Paths.KeptComps | server/storage_handler.py:48-50 | every component of a kept member is a plain segment |
| Paths.DotIffNoComps | server/storage_handler.py:48 | a relative name normalizes to `.` iff it has no components left |
| Paths.SkipsParent | server/storage_handler.py:48-50 | `../x` is skipped |
| Paths.SkipsAbsolute | server/storage_handler.py:48-50 | `/x` is skipped |
| Paths.SkipsDotDotPrefix | server/storage_handler.py:48-50 | `..x`, a plain file name, is skipped too, because of the text prefix test |
| Paths.KeepsReentry | server/storage_handler.py:48-50 | `a/../b` is kept and lands at `b` |
| ServerTree.MakeDirs | server/storage_handler.py:41 | fails iff a file lies on the way; otherwise every folder of the path exists, nothing existing changes, and only those folders are added |
| ServerTree.MakeDirsExisting | server/storage_handler.py:56 | an existing folder chain never causes failure and nothing changes |
| ServerTree.MakeDirsIdempotent | server/storage_handler.py:41 | creating the same folders a second time changes nothing |
| Extraction.ComputerFolder | server/storage_handler.py:15-19 | the computer folder is at most one plain segment below the root, and it is the root itself exactly when nothing survives sanitizing |
| Extraction.DateFolder | server/storage_handler.py:21-24 | the date folder is the computer folder plus the date text, one or two plain segments |
| Extraction.Names | server/storage_handler.py:46 | `namelist()` has one name per entry, in archive order |
| Extraction.LastData | server/storage_handler.py:59 | opening a name reads the bytes of the last entry with that name |
| Extraction.KeptNames | server/storage_handler.py:46-50 | a name is kept iff it is in the archive and not skipped |
| Extraction.RunIgnoresSkipped | server/storage_handler.py:46-50 | skipped members neither change the tree nor stop the rest: the pass equals a pass over the kept names alone |
| Extraction.KeptTarget | server/storage_handler.py:53 | a kept member's target lies strictly inside the date folder, is made of plain segments, and sits in its computed parent folder |
| Extraction.DotMemberFails | server/storage_handler.py:53-61 | a member that normalizes to `.` names the date folder itself, so opening it as a file fails the upload |
| Extraction.StepFrame | server/storage_handler.py:53-61 | one member removes nothing, turns no file into a folder, changes only its target and adds only its target and its folders |
| Extraction.RunFrame | server/storage_handler.py:46-61 | over the whole pass, an entry changes only where a kept member is written, and appears only where one is written or its folders made |
| Extraction.RunConfined | server/storage_handler.py:46-61 | everything a pass adds or changes lies under the date folder and is made of plain segments |
| Extraction.SaveUploadConfined | server/storage_handler.py:26-67 | an upload removes nothing; what it adds or changes lies under the date folder, apart from that folder and its parent created as folders |
| Extraction.RunValue | server/storage_handler.py:53-61 | after a successful pass every written target holds the bytes of the last member written there |
| Extraction.RunSettles | server/storage_handler.py:46-61 | after a successful pass every kept member has its folders and a target that is not a folder |
| Extraction.ExtractIdempotent | server/storage_handler.py:53-61 | extracting the same archive again into the same date folder succeeds and changes nothing |
| Extraction.SaveUploadIdempotent | server/storage_handler.py:26-67 | uploading the same archive again, for the same computer on the same day, succeeds and leaves the tree as it was |
| Retention.Sweep | server/storage_handler.py:69-100 | the sweep only removes entries; what it keeps is unchanged |
| Retention.RemoveTree | server/storage_handler.py:89 | `rmtree` removes the folder and exactly what lies below it, and nothing else changes |
| Retention.ShardRemovedIffExpired | server/storage_handler.py:84-89 | an entry in a date folder is removed iff the folder's name parses as a date whose midnight is before the cutoff |
| Retention.UnparsedKept | server/storage_handler.py:80-93 | files in a computer folder, and folders whose names do not parse, are kept with everything inside them |
| Retention.ComputerRemovedIffEmpty | server/storage_handler.py:95-97 | a computer folder is removed iff it has no entries left after the sweep |
| Retention.SweepKeepsTree | server/storage_handler.py:69-100 | every entry the sweep keeps still sits in a folder it keeps |
| Retention.SweepIdempotent | server/storage_handler.py:69-100 | sweeping again with the same cutoff removes nothing more |
| Retention.RecentShardKept | server/storage_handler.py:72-87 | a date folder survives every sweep run within `RETENTION_DAYS` days of its midnight |
| Inventory.TotalSizeRemove | server/storage_handler.py:122-125 | the byte total does not depend on the order in which files are visited |
| Inventory.TotalSizeSubset | server/storage_handler.py:122-125 | fewer files never weigh more |
| Inventory.SweepShrinksUsage | server/storage_handler.py:111-130 | the retention sweep never adds a computer, a file or a byte to what the statistics report |
| StorageHandling.StorageHandler.constructor | server/storage_handler.py:11-13 | the handler wraps the given storage root |
| StorageHandling.StorageHandler.SaveUpload | server/storage_handler.py:26-67 | the loop over the members reaches the result and tree of the `Extraction.SaveUpload` definition |
| StorageHandling.StorageHandler.CleanupOldData | server/storage_handler.py:69-100 | the nested loops, visiting entries in any order, leave the tree that `Retention.Sweep` defines at `now - RETENTION_DAYS` |
| StorageHandling.StorageHandler.UsageOf | server/storage_handler.py:118-130 | the number of regular files under the computer folder, recursively, and their total size, whatever order the walk takes |
| StorageHandling.StorageHandler.GetStatistics | server/storage_handler.py:102-139 | the number of folders directly under the root, and for each one its file count and byte total |
| FileReceiving.AnyPrefix | server/file_receiver.py:25 | true iff the address starts with the text before `/` of some entry |
| FileReceiving.CheckIpWhitelist | server/file_receiver.py:18-25 | an empty allow-list admits everyone; otherwise an address is admitted iff it starts with the text before `/` of some entry |
| FileReceiving.CidrEntryRejectsMember | server/file_receiver.py:24-25 | the entry `192.168.1.0/24` does not admit `192.168.1.5` |
| FileReceiving.PrefixAdmitsOther | server/file_receiver.py:25 | the entry `10.0.0.1` also admits `10.0.0.100` |
| FileReceiving.Gate | server/file_receiver.py:39-53 | 403 iff the address is refused; else 401 iff the token is wrong or missing; else 400 iff the file part is missing or has an empty name; otherwise the request passes with a named file |
| FileReceiving.ComputerIdOf | server/file_receiver.py:56 | the form's `computer_id`, or `unknown` when it is absent |
| FileReceiving.RejectedLeavesStorage | server/file_receiver.py:39-77 | the answer is one of 200, 400, 401, 403 and 500, and a 400, 401 or 403 leaves storage untouched |
| FileReceiving.SuccessIff | server/file_receiver.py:65-77 | the answer is 200 iff every check passes, the bytes are saved and `save_upload` returns True |
| FileReceiving.RetryHarmless | server/file_receiver.py:36-84 | repeating an accepted upload on the same day answers 200 and changes nothing |
| FileReceiving.UploadConfined | server/file_receiver.py:36-84 | whatever the member names, an upload changes storage only inside its date folder, apart from creating that folder and its parent |
| FileReceiving.FileReceiver.constructor | server/file_receiver.py:8-11 | the app holds the storage handler, the allow-list and the token, and no temporary file yet |
| FileReceiving.FileReceiver.UploadFile | server/file_receiver.py:36-84 | answer and storage are those of the guard chain and `save_upload`; a temporary file is created only past the checks and removed on every path unless its removal fails |
| FileReceiving.FileReceiver.GetStats | server/file_receiver.py:86-93 | 401 without reading storage on a bad token; otherwise 200 with the statistics of the storage root |
| FileReceiving.FileReceiver.Dashboard | server/file_receiver.py:95-102 | 401 without reading storage on a bad token; otherwise 200 with the statistics the page shows |
| FileReceiving.FileReceiver.Cleanup | server/file_receiver.py:210-220 | 401 without touching storage on a bad token; otherwise the sweep runs and the answer is 200 |

## Left out

- Record producers, persistence and packaging:
  - input hooks (`client/event_tracker.py`) and screen capture (`src/screenshot_manager.py`) are OS capture;
  - start-up registration (`src/auto_start.py`), `build.py` and console hiding are OS side effects;
  - none of them is part of this model.
- Threads, `time.sleep` loops, `stop()` and the `schedule` job of `server/main.py` are concurrency and timing, and are not modelled.
  - One pass of the LAN `_sync_loop` is `NetworkSync.SyncCycle`.
  - The cloud `_sync_loop` (`src/firebase_sync.py:119-133`) only calls `upload_events`, `upload_screenshots` and the local cleanup in turn; each of those is modelled, but their composition is not.
- Exceptions out of the record store are not modelled.
  - SQLite errors and a full disk are examples.
  - In the source, such an exception inside a cycle skips the rest of that cycle, including the cleanup.
  - In the model, store operations always complete.
- The HTTP client's retries (`Retry(total=3)` on 500/502/503/504) are library behaviour. A post is modelled as its final outcome: a status or an exception.
- The LAN driver's temporary directory and ZIP file are not modelled as files.
  - Only the creation of the directory matters to the store. `tempfile.mkdtemp()` (`client/network_sync.py:48`) sits outside every `try` of `upload_data`.
  - When it raises, the cycle ends without flagging anything and without the local cleanup. `NetworkSync.NetworkSync.SyncCycle` models this with its `tempFails` parameter.
  - Writing, posting and removing the ZIP file do not affect the store or the server beyond the modelled outcomes.
- `json.dumps(..., indent=2)` is modelled with the default separators.
  - Line breaks and indentation are whitespace that `json.loads` ignores.
- `Json.RoundTrip`: floating-point values are not modelled, so the round trip is proved for `null`, booleans, integers, strings, arrays and objects only.
  - Floats do reach the store: click coordinates can be floats on some platforms.
  - Python writes the shortest text that reads back as the same float; modelling that would need a model of binary floating point.
- ISO-8601 timestamps are integers.
  - The source compares the text of timestamps with the text of the cutoff.
  - That agrees with integer order only when every timestamp has the same format, which is assumed.
- `Dates.Parse` accepts ASCII digits only.
  - In `strptime`, `\d` (in `%Y` and in the `[12]\d` alternative of `%d`) matches any Unicode decimal digit, and `int()` reads it.
  - So a date folder named with such a digit can be removed by the source's sweep, while the model keeps it.
  - Upload folders are unaffected, because `strftime` writes ASCII digits.
- `str.isalnum` accepts Unicode letters and digits. `Paths.SafeId` keeps only ASCII letters and digits, because the model has no Unicode character classes.
- `strftime('%Y')` for years below 1000 is written with four digits. Platforms differ on that padding, and current dates are unaffected.
- On the server, only POSIX `normpath` is modelled. Windows path rules (backslashes, drive letters) are not.
- `Common.Basename` models `ntpath.basename` for drive-letter and drive-less paths. UNC paths (`\\server\share\…`) are not modelled.
  - `ntpath` takes their first two components as the drive, and the rule differs between Python versions.
  - The client's own paths lie under `%APPDATA%`, on a drive letter.
- `Extraction.Step`: extracting a member fails in the model only when a file lies on the way to its folder, or when its target is a folder.
  - In the source, lines 59-61 of `server/storage_handler.py` can also raise for other reasons, and `save_upload` then returns False (and `/upload` answers 500).
  - Examples: an entry `zipfile` cannot read (encrypted, or an unsupported compression); a CRC mismatch, found after the target was already truncated; a name component longer than the file system allows; a full disk.
  - For such archives the model reports success where the source reports failure, and it does not model the partly written target.
  - The confinement and re-extraction properties still hold for every upload that succeeds in the source.
- The server's filesystem never raises in the sweep. In the source, an `rmtree` or `rmdir` failure ends the whole sweep early, and the error is only printed. `iterdir` on a missing storage root is not modelled either.
- `FileReceiving.FileReceiver.Cleanup`: its 500 branch is not modelled. `cleanup_old_data` catches every exception itself, so that branch cannot be reached.
- Firebase credential loading and `get_app()` are foreign calls. They are modelled as the constructor's `connected` parameter, a bucket or none.
- `FirebaseSync.FirebaseSync.UploadEvents`: writing the local events file always succeeds in the model. In the source, a missing events folder raises out of `upload_events`.
- The dashboard HTML, `/health` and `MAX_CONTENT_LENGTH` are presentation, or limits the framework enforces. They are not modelled.
- `StorageHandling.StorageHandler.GetStatistics`:
  - `size_mb` and `total_size_mb` are floating-point roundings, so only the integer file counts and byte totals are modelled;
  - the exception path of `get_statistics` is not modelled.
- The order in which directories are listed is not modelled. The sweep and the statistics loops visit entries in any order, and their results are proved independent of it.
