# Package Audit Dashboard — verified model of the backend core

Package Audit Dashboard is a local web dashboard. It lists, audits and
uninstalls the packages of several package managers (npm, pip, winget, …).
Its FastAPI backend runs every command through a small core, which this
project models in Dafny and reasons about:

- **Validation layer** (`Validation`): accepts or refuses package names,
  manager ids, command arguments and paths. It reproduces the regular
  expressions exactly, including the `$` that also matches before a final
  newline.
- **JSON store** (`Storage`): documents kept as files below one base
  directory; a file may also hold bytes `json.load` cannot decode, and
  reading it then fails. Every relative path is resolved first, and a path that is
  absolute or escapes the directory is refused. `Paths` models the part of
  `pathlib` that this uses: parsing, joining, lexical `resolve()` and
  `relative_to`.
- **File lock** (`Locking`): `acquire_lock`, `release_lock`, staleness after
  30 seconds, `wait_for_lock` as bounded polling, and the forced and cleanup
  releases.
- **Operation queue** (`Queue`): reads run freely. Mutations run under the
  lock, which is released whatever the function does, and a blocked
  mutation names the operation that holds the lock.
- **Snapshot store** (`SnapshotRecords`, `Snapshots`, `Retention`,
  `Creation`):
  - `create_snapshot`, `list_snapshots` (newest first), `get_snapshot`,
    `restore_snapshot` and `delete_snapshot`;
  - snapshot-id generation, which never reuses an existing file;
  - the retention pass, which keeps exactly the ten newest snapshots;
  - a created snapshot, which is written to a fresh file, summarised
    exactly, and read back when it is the newest.
- **Adapter base class** (`Adapters`):
  - the constructor guard;
  - command building with sanitised package names;
  - the per-adapter cache paths below `adapters/<manager_id>/`;
  - the default "not supported" answers.
- **Rate limiter** (`RateLimit`):
  - per-client minute and hour windows;
  - client-address precedence;
  - the `*` path patterns;
  - the per-path limiters with their shared cache.
- **Log redaction** (`Redaction`): recursive redaction of sensitive fields
  and headers.

`Wrappers` holds `Option`, `Result` and the exceptions of the core, one per
Python class. `JsonValue` holds JSON values, with objects as
insertion-ordered field lists. `Text` holds the string built-ins the core
relies on: `lower`, `strip`, `split(...)[0]` and code-point order.

Code that only computes is written as functions and lemmas. Code that changes
state takes the form of Dafny classes:
- `JsonStore` holds a map from resolved path to document;
- `LockManager` holds the lock file;
- `OperationQueue`, `SnapshotManager`, `Adapter`, `RateLimiter` and
  `PathRateLimiter` update their fields in place.

Each method is proved against a specification function. The properties of
those functions are proved as lemmas.

Time is an integer number of seconds. Process ids, host names, clock readings
and random draws are parameters. The file system is the `files` map of the
store.

## Model

| member | source | states |
|---|---|---|
| Validation.AllowedBaseDir | backend/app/core/validation.py:22 | the allowed base directory is the absolute path `<home>/.package-audit` |
| Validation.SanitizePackageName | backend/app/core/validation.py:25-44 | a name is accepted (and returned unchanged) exactly when it is non-empty, at most 214 characters, matches `^[a-zA-Z0-9@/_.-]+$` (with the final-newline quirk) and has no `..`; a refusal is an InvalidPackageNameError on that name, Empty exactly for "" and TooLong exactly beyond 214 characters |
| Validation.SanitizePackageNameIdempotent | backend/app/core/validation.py:25-44 | sanitising an accepted name again accepts it again, unchanged |
| Validation.BadCharacterRejected | backend/app/core/validation.py:34-37 | a non-empty name of at most 214 characters with a character outside the class (other than a final newline) is refused for bad characters |
| Validation.PlainNameAccepted | backend/app/core/validation.py:34-44 | a name of letters, digits, `@`, `/`, `_`, `-` within the length limit is accepted unchanged |
| Validation.PackageNameAcceptances | backend/tests/test_validation.py:22-33 | `react`, `@types/node`, `lodash-es` and `test_package` are accepted |
| Validation.PackageNameRejections | backend/tests/test_validation.py:42-54 | "" is refused as empty, 300 × `a` as too long, `../../etc/passwd` for its `..` |
| Validation.InjectionRejected | backend/tests/test_validation.py:34-41 | each shell-injection attempt (`;`, `|`, `&&`, `$(...)`, backticks, spaces, embedded newline) is refused for bad characters |
| Validation.TrailingNewlineAccepted | backend/app/core/validation.py:20 | because `$` matches before a final newline, a valid name followed by "\n" is accepted with the newline |
| Validation.SanitizeManagerId | backend/app/core/validation.py:80-89 | an id is accepted exactly when it matches `^[a-z][a-z0-9_-]*$` (final-newline quirk included) and has at most 50 characters, and is then returned unchanged; otherwise InvalidPackageNameError on that id |
| Validation.SanitizeManagerIdIdempotent | backend/app/core/validation.py:80-89 | sanitising an accepted id again accepts it again, unchanged |
| Validation.ManagerIdExamples | backend/tests/test_validation.py:122-139 | `npm` and `pip-tools` are accepted; `NPM`, `npm;rm` and a 100-character id are refused; `npm\n` is accepted |
| Validation.SanitizeAll | backend/app/core/validation.py:54-56 | the comprehension succeeds exactly when every argument is valid, returns the arguments unchanged, and otherwise fails with the error of the first invalid one |
| Validation.BuildSafeCommand | backend/app/core/validation.py:47-57 | `base_cmd + args` exactly when every argument is valid, else the InvalidPackageNameError of the first invalid argument |
| Validation.BuildSafeCommandExamples | backend/tests/test_validation.py:69-87 | `npm uninstall react` and a multi-package install are built; an argument with `; rm -rf /` is refused |
| Validation.ValidatePath | backend/app/core/validation.py:60-77 | an accepted path is absolute, resolved and inside the base directory; a refusal is PathTraversalError on the given path |
| Validation.ValidatePathRelative | backend/app/core/validation.py:64-68 | a relative path of plain names resolves to the base directory followed by those names |
| Validation.ValidatePathAbsolute | backend/app/core/validation.py:64-77 | an absolute path of plain names is accepted, unchanged, exactly when it lies below the base directory |
| Validation.ValidatePathRejectsTraversal | backend/tests/test_validation.py:110-113 | `../../etc/passwd` is refused with PathTraversalError |
| Paths.Parse | backend/app/storage/json_storage.py:28-29 | `Path(s)` keeps only non-empty, non-`.` parts and is absolute exactly when `s` starts with `/` |
| Paths.Join | backend/app/storage/json_storage.py:32 | `p / q` is `q` when `q` is absolute, else the parts of `p` followed by those of `q` |
| Paths.ParseToString | backend/app/adapters/base.py:179 | parsing the text of a parsed path gives the same path back |
| Paths.Resolve | backend/app/storage/json_storage.py:32 | lexical `resolve()` leaves only plain names |
| Paths.ResolveNormal | backend/app/storage/json_storage.py:32 | resolving plain names below a resolved prefix appends them |
| Paths.ResolveSplit | backend/app/storage/json_storage.py:32 | resolving two pieces in turn is resolving the whole |
| Paths.Resolved | backend/app/storage/json_storage.py:32 | a resolved path keeps its absoluteness and holds only plain names |
| Paths.Within | backend/app/storage/json_storage.py:34-39 | `relative_to(base)` succeeds exactly when both paths are absolute or both relative and `p`'s parts begin with `base`'s parts; no contract of its own, it defines acceptance in `Storage.ResolvePath` |
| Storage.ResolvePath | backend/app/storage/json_storage.py:27-41 | an absolute path is refused; an accepted path is resolved and lies at or below the base directory; every refusal is PathTraversalError on the given path |
| Storage.ResolvePlainPath | backend/app/storage/json_storage.py:32-41 | a relative path of plain names resolves to the base directory followed by those names |
| Storage.ResolveRejectsParent | backend/app/storage/json_storage.py:34-39 | `../name` escapes the base directory and is refused |
| Storage.ExistsIn | backend/app/storage/json_storage.py:43-44 | `exists` fails exactly when the path is refused, and is true exactly when the resolved path holds a file or is a directory: the base directory itself, or one some stored file lies below |
| Storage.Lookup | backend/app/storage/json_storage.py:46-50 | `read` returns the stored document exactly when the resolved path holds a file `json.load` can decode; a refused path is PathTraversalError; a file it cannot decode is the ValueError `json.load` raises; a path that exists but holds no file is a directory, IsADirectoryError; a path that does not exist is NotADirectoryError when a stored file lies on the way to it and FileNotFoundError otherwise |
| Storage.Written | backend/app/storage/json_storage.py:52-70 | `write` succeeds exactly when the path resolves, is no directory and has no stored file on the way to it; a directory with nothing in the way is IsADirectoryError; a successful write then returns the resolved path, after which `read` returns the data and `exists` is true, adds that one file and changes no other; a failed write changes nothing; the store stays inside its directory |
| Storage.Removed | backend/app/storage/json_storage.py:72-78 | `delete` is true exactly when a file was there, decodable or not, and removes exactly that file, after which reading it is FileNotFoundError; false exactly when nothing exists there; otherwise it fails, with PathTraversalError on a refused path and IsADirectoryError on a directory, and nothing changes |
| Storage.JsonStore.constructor | backend/app/storage/json_storage.py:22-25 | the store holds the given absolute, resolved base directory and the files below it, and starts valid |
| Storage.JsonStore.Exists | backend/app/storage/json_storage.py:43-44 | the method answers `ExistsIn` of the current files |
| Storage.JsonStore.Read | backend/app/storage/json_storage.py:46-50 | the method answers `Lookup` of the current files |
| Storage.JsonStore.Write | backend/app/storage/json_storage.py:52-70 | the method's result and new files are those of `Written`, and the store stays valid |
| Storage.JsonStore.Delete | backend/app/storage/json_storage.py:72-78 | the method's result and new files are those of `Removed`, and the store stays valid |
| Locking.Info | backend/app/core/locking.py:91-99 | `get_lock_info` gives the record exactly when the lock file holds one, and then that record; nothing when there is no lock file |
| Locking.Locked | backend/app/core/locking.py:73-74 | `is_locked` holds exactly when a lock file exists, readable or not; no contract of its own, it is the answer of `Locking.LockManager.IsLocked` |
| Locking.Stale | backend/app/core/locking.py:76-89 | `is_stale`: no lock file is not stale; an unreadable or empty record, a missing or unparsable timestamp, or one more than 30 seconds old is stale; no contract of its own, `Locking.StaleReclaimed` states its consequence |
| Locking.Record | backend/app/core/locking.py:44-51 | the record `acquire_lock` writes is an object with distinct keys |
| Locking.RecordReads | backend/app/core/locking.py:44-51 | the record's `operation`, `pid`, `timestamp` and `hostname` read back as written |
| Locking.Acquire | backend/app/core/locking.py:37-58 | `acquire_lock` succeeds exactly when there is no lock file or it is stale, then writes the caller's record; otherwise the file is left as it was |
| Locking.AcquireHolds | backend/app/core/locking.py:37-58 | after a successful acquire the lock is live and names the caller |
| Locking.Release | backend/app/core/locking.py:60-71 | `release_lock` is false and changes nothing without a lock file; it removes the file exactly when forced or when the record's pid is the caller's |
| Locking.NotReentrant | backend/tests/test_locking.py:31-34 | while the new record is younger than the timeout, every further acquire, by any process, fails and leaves it in place |
| Locking.StaleReclaimed | backend/tests/test_locking.py:61-71 | once the timeout has passed, any process takes the lock over and the record names the new operation |
| Locking.OwnerReleaseThenAcquire | backend/tests/test_locking.py:94-101 | after the owner's release the next acquire succeeds; a non-forced release by another pid changes nothing |
| Locking.Polled | backend/app/core/locking.py:107-112 | the loop tests that see the clock inside the waiting time are exactly the polls before the first reading `max_wait` past the start |
| Locking.FirstFreeIsFirst | backend/app/core/locking.py:107-112 | the poll `wait_for_lock` takes the lock at is inside the waiting time and finds the lock free or stale, and no poll before it does |
| Locking.FirstFreeAt | backend/app/core/locking.py:108-110 | after polls in vain, a poll inside the waiting time that can take the lock is where the lock is taken |
| Locking.NoneFree | backend/app/core/locking.py:108-112 | when the polls run out or the time is over after polls in vain, `wait_for_lock` gives up |
| Locking.LockManager.constructor | backend/app/core/locking.py:24-28 | the manager works on the lock file as it finds it |
| Locking.LockManager.IsLocked | backend/app/core/locking.py:73-74 | the method answers whether the lock file exists |
| Locking.LockManager.GetLockInfo | backend/app/core/locking.py:91-99 | the method answers `Info` of the lock file |
| Locking.LockManager.IsStale | backend/app/core/locking.py:76-89 | the method answers `Stale`: no lock is not stale; an unreadable or empty record, a missing or unparsable timestamp, or one older than 30 seconds is |
| Locking.LockManager.AcquireLock | backend/app/core/locking.py:37-58 | the result and new lock file are those of `Acquire` |
| Locking.LockManager.ReleaseLock | backend/app/core/locking.py:60-71 | the result and new lock file are those of `Release` |
| Locking.LockManager.ForceRelease | backend/app/core/locking.py:114-115 | afterwards there is no lock file |
| Locking.LockManager.CleanupHandler | backend/app/core/locking.py:117-118 | the exiting process releases only its own lock |
| Locking.LockManager.WaitForLock | backend/app/core/locking.py:101-112 | it succeeds exactly when some poll inside the waiting time can take the lock, and then the lock names the caller at that poll's clock reading |
| Locking.LockManager.PollLock | backend/app/core/locking.py:108-112 | the loop stops at the first poll that takes the lock or at the end of the waiting time, every poll before having been in vain |
| Queue.Finish | backend/app/core/queue.py:43-46 | the function's return value is passed on and its exception propagates |
| Queue.Holder | backend/app/core/queue.py:37-38 | the blocker named is the record's `operation`, or "unknown" when there is no readable record or the record has no `operation` field |
| Queue.Executed | backend/app/core/queue.py:25-46 | a read runs without the lock; a mutation under a live lock is blocked and changes nothing; a mutation that can take the lock runs under it and releases it afterwards |
| Queue.MutationReleases | backend/app/core/queue.py:43-46 | a mutation left alone by other processes leaves the lock released whether its function returned or raised, so the next mutation runs |
| Queue.ReclaimedLockSurvives | backend/app/core/queue.py:46 | when another process took over the lock meanwhile, the final release leaves that process's record in place |
| Queue.BlockedNamesHolder | backend/app/core/queue.py:36-41 | a mutation blocked by another operation's lock names that operation |
| Queue.OperationQueue.constructor | backend/app/core/queue.py:22-23 | the queue uses the lock manager it is given |
| Queue.OperationQueue.Run | backend/app/core/queue.py:42-46 | the function's outcome is passed on, and the lock file is the one the other processes left behind |
| Queue.OperationQueue.Execute | backend/app/core/queue.py:25-46 | the result and lock file are those of `Executed`; a mutation that runs holds the lock while its function runs |
| SnapshotRecords.ListOf | backend/app/analysis/snapshot_manager.py:44 | `list(packages or [])`: a falsy value gives the empty list, a list itself, an object its keys, a string its characters, and a number or boolean a TypeError |
| SnapshotRecords.Sanitized | backend/app/analysis/snapshot_manager.py:41-44 | the manager loop succeeds exactly when every id is valid and every package list convertible, keeping the ids in order with their lists; otherwise it fails with an item's error |
| SnapshotRecords.PackageCountAppend | backend/app/analysis/snapshot_manager.py:48 | the package count of two groups of managers is the sum of their counts |
| SnapshotRecords.ManagersObject | backend/app/analysis/snapshot_manager.py:53 | one field per manager, in order, holding its list |
| SnapshotRecords.RecordHeader | backend/app/analysis/snapshot_manager.py:49-52 | the new record holds the id, the creation time and the package count |
| SnapshotRecords.RecordBody | backend/app/analysis/snapshot_manager.py:53-54 | the new record holds the sanitised lists by manager and the metadata, `{}` when it is falsy |
| SnapshotRecords.SummaryFromRecord | backend/app/analysis/snapshot_manager.py:95-102 | a record that is not an object is a TypeError, one without `id` a KeyError; a summary copies `id` and `created_at`; its managers are the sorted keys of `managers` (none when absent); its count is `package_count` or 0 |
| SnapshotRecords.SummaryOfCompleteRecord | backend/app/analysis/snapshot_manager.py:95-102 | a record with all four fields is summarised without error |
| SnapshotRecords.MakeRecord | backend/app/analysis/snapshot_manager.py:48-55 | the record is an object of the five fields `id`, `created_at`, `package_count`, `managers` and `metadata`, whose values `RecordHeader` and `RecordBody` state |
| SnapshotRecords.SummaryOfNewRecord | backend/app/analysis/snapshot_manager.py:59 | the summary `create_snapshot` returns describes the record it wrote: its id, time, sorted manager ids and package count |
| SnapshotRecords.DigitsRoundTrip | backend/app/analysis/snapshot_manager.py:91 | a zero-padded decimal field reads back as the number |
| SnapshotRecords.BasicFormat | backend/app/analysis/snapshot_manager.py:91 | `strftime('%Y%m%dT%H%M%S')` is 15 characters, digits around a `T` |
| SnapshotRecords.Candidate | backend/app/analysis/snapshot_manager.py:91 | a candidate id is 22 characters, the timestamp, `-` and six hex digits, with no `/` |
| SnapshotRecords.CandidateClock | backend/app/analysis/snapshot_manager.py:91 | the timestamp part of an id reads back as the clock it was made from |
| SnapshotRecords.CandidateFileIsName | backend/app/analysis/snapshot_manager.py:92 | a candidate's file name is a plain name directly in the store |
| SnapshotRecords.TimesError | backend/app/analysis/snapshot_manager.py:69 | the sort key fails exactly when some `created_at` is not a timestamp |
| SnapshotRecords.InsertByTime | backend/app/analysis/snapshot_manager.py:68-71 | inserting into a newest-first list keeps it newest first and adds exactly that summary |
| SnapshotRecords.SortNewestFirst | backend/app/analysis/snapshot_manager.py:68-71 | the sorted list is newest first and a permutation of the input |
| Snapshots.SortedNames | backend/app/analysis/snapshot_manager.py:64 | `sorted(glob("*.json"))`: the snapshot file names in code-point order, each once |
| Snapshots.Summaries | backend/app/analysis/snapshot_manager.py:64-66 | reading succeeds with one summary per file name, each read from that file |
| Snapshots.SummariesStopAtError | backend/app/analysis/snapshot_manager.py:64-66 | once reading a prefix fails, the whole loop fails with that error |
| Snapshots.SummariesFailAt | backend/app/analysis/snapshot_manager.py:64-66 | a name whose file cannot be read makes the whole reading loop fail |
| Snapshots.Listing | backend/app/analysis/snapshot_manager.py:61-72 | `list_snapshots`, when it succeeds, gives a newest-first list of timestamped summaries, as many as there are snapshot files |
| Snapshots.Purged | backend/app/analysis/snapshot_manager.py:109-110 | the deletions only remove files, change no document and keep the store inside its directory |
| Snapshots.PurgedStopAtError | backend/app/analysis/snapshot_manager.py:109-110 | once a deletion fails, the later ones do not happen |
| Snapshots.Prune | backend/app/analysis/snapshot_manager.py:104-110 | after listing, retention only removes files and changes no document |
| Snapshots.Retained | backend/app/analysis/snapshot_manager.py:104-110 | `_enforce_retention` only removes files and changes no document |
| Snapshots.FileNames | backend/app/analysis/snapshot_manager.py:110 | the files deleted are `<id>.json` of the listed summaries, in order |
| Snapshots.FirstFreshIsFirst | backend/app/analysis/snapshot_manager.py:90-93 | the candidate chosen names no existing file, and every earlier candidate did |
| Snapshots.NoFreshDraw | backend/app/analysis/snapshot_manager.py:90-93 | when no candidate is chosen, every candidate names an existing file |
| Snapshots.FreshId | backend/app/analysis/snapshot_manager.py:88-93 | the generated id is 22 characters long, its file does not exist, and its file name is a plain name |
| Snapshots.Created | backend/app/analysis/snapshot_manager.py:32-59 | a package map that is not a dict is a TypeError and an invalid manager id its error, both writing nothing; the store stays inside its directory; success on a catalogue is stated by `Creation.CreatedSnapshot`, the write's success in any store the model keeps by `Creation.FreshWrite`, and a retention failure after the write by `Creation.CreateOverGarbled` |
| Snapshots.SnapshotManager.constructor | backend/app/analysis/snapshot_manager.py:28-30 | the manager uses the store it is given |
| Snapshots.SnapshotManager.Glob | backend/app/analysis/snapshot_manager.py:64 | the scan finds each snapshot file of the directory once |
| Snapshots.SnapshotManager.ReadSummaries | backend/app/analysis/snapshot_manager.py:64-66 | the loop gives `Summaries` of the names |
| Snapshots.SnapshotManager.ListSnapshots | backend/app/analysis/snapshot_manager.py:61-72 | the method gives `Listing` of the store |
| Snapshots.SnapshotManager.DeleteAll | backend/app/analysis/snapshot_manager.py:109-110 | the loop's error and files are those of `Purged` of the victims' file names |
| Snapshots.SnapshotManager.EnforceRetention | backend/app/analysis/snapshot_manager.py:104-110 | the method's error and files are those of `Retained` |
| Snapshots.SnapshotManager.GenerateSnapshotId | backend/app/analysis/snapshot_manager.py:88-93 | the method returns `FreshId` of the candidates |
| Snapshots.SnapshotManager.SanitizeManagers | backend/app/analysis/snapshot_manager.py:41-44 | the loop gives `Sanitized` of the package map |
| Snapshots.SnapshotManager.CreateSnapshot | backend/app/analysis/snapshot_manager.py:32-59 | the result and files are those of `Created`, whose success case `Creation.CreatedSnapshot` states |
| Snapshots.SnapshotManager.GetSnapshot | backend/app/analysis/snapshot_manager.py:74-76 | the stored record of `<id>.json`, as `read` returns it |
| Snapshots.SnapshotManager.RestoreSnapshot | backend/app/analysis/snapshot_manager.py:78-80 | the same as `get_snapshot` |
| Snapshots.SnapshotManager.DeleteSnapshot | backend/app/analysis/snapshot_manager.py:82-84 | the result and files are those of deleting `<id>.json` |
| Retention.CatalogueListing | backend/app/analysis/snapshot_manager.py:61-72 | in a directory whose records name their own files, listing succeeds and lists every snapshot file once, newest first |
| Retention.RetentionSmall | backend/app/analysis/snapshot_manager.py:105-107 | on a catalogue of at most ten snapshots nothing is deleted |
| Retention.RetentionLarge | backend/app/analysis/snapshot_manager.py:104-110 | on a catalogue of more than ten snapshots retention never fails and leaves exactly ten, each at least as new as every deleted one, every other file untouched |
| Retention.RetentionKeepsNewest | backend/app/analysis/snapshot_manager.py:26 | on a catalogue, retention never fails; it keeps every snapshot when there are at most ten and exactly ten otherwise, none older than a deleted one; it deletes only snapshot files and leaves a catalogue |
| Retention.GarbledSnapshot | backend/app/analysis/snapshot_manager.py:61-80 | a snapshot file `json.load` cannot decode: reading it is that ValueError, so `get_snapshot` and `restore_snapshot` fail; `list_snapshots` fails, and so does the retention pass, which deletes nothing |
| Retention.PurgedNames | backend/app/analysis/snapshot_manager.py:109-110 | deleting plain file names that name no directory, one after the other, never fails and removes exactly those files |
| Retention.RetainedLarge | backend/app/analysis/snapshot_manager.py:109-110 | with more than ten listed snapshots, none of them a directory, the files removed are those listed after the tenth |
| Retention.KeptAreNewest | backend/app/analysis/snapshot_manager.py:68-71 | every snapshot among the first ten of a newest-first listing is at least as new as every one after them |
| Creation.FileNameStem | backend/app/analysis/snapshot_manager.py:57 | `<id>.json` is a `*.json` name whose stem is the id |
| Creation.NewRecordFor | backend/app/analysis/snapshot_manager.py:49-55 | a new record names its id, carries a timestamp and a `managers` object, as a catalogue asks |
| Creation.NothingAboveName | backend/app/storage/json_storage.py:54 | no stored file lies on the way to a file directly in the base directory, so `mkdir` of the parent succeeds |
| Creation.WrittenFresh | backend/app/analysis/snapshot_manager.py:57 | writing the record of a fresh id succeeds, adds exactly that snapshot, leaves every other snapshot's creation time as it was, and keeps the directory a catalogue |
| Creation.KeptNotOlder | backend/app/analysis/snapshot_manager.py:104-110 | a snapshot the retention pass keeps is at least as new as every one it deletes |
| Creation.NewestKept | backend/app/analysis/snapshot_manager.py:104-110 | a snapshot strictly newer than every other one survives the retention pass, its file unchanged |
| Creation.NewestSurvives | backend/app/analysis/snapshot_manager.py:57-58 | a record written under a fresh id and newer than every stored snapshot survives the retention pass that follows and reads back unchanged |
| Creation.FreshWrite | backend/app/analysis/snapshot_manager.py:46-57 | in any directory the store keeps, the fresh id's file does not exist and the write of `create_snapshot` succeeds, adding exactly that file |
| Creation.CreateOverGarbled | backend/app/analysis/snapshot_manager.py:57-58 | with an undecodable snapshot file stored, `create_snapshot` fails after writing: the new record stays written and nothing is deleted |
| Creation.CreatedSnapshot | backend/app/analysis/snapshot_manager.py:32-59 | on a catalogue with a valid package map: the write succeeds and adds exactly `<id>.json`, a file that did not exist; the written directory is a catalogue; the result is the summary of id, time, sorted manager ids and package count; retention then keeps the newest ten of the written directory; when the new snapshot is newer than every stored one, `get_snapshot(id)` afterwards returns the record |
| Adapters.NewAdapter | backend/app/adapters/base.py:28-37 | an adapter without a manager id or executable is a ValueError with the source's message; otherwise it keeps both names and the given store |
| Adapters.Adapter.constructor | backend/app/adapters/base.py:28-37 | an adapter keeps its manager id, executable and store; both names are non-empty (`NewAdapter` is the path that checks them) |
| Adapters.Adapter.DependencyTree | backend/app/adapters/base.py:74-85 | the default answer names the manager and the package, has an empty tree, `supported` false and the message |
| Adapters.Adapter.Vulnerabilities | backend/app/adapters/base.py:87-97 | the default answer names the manager, has no vulnerabilities, `supported` false and the message |
| Adapters.Adapter.Lockfile | backend/app/adapters/base.py:99-109 | the default answer names the manager, has an empty lockfile, `supported` false and the message |
| Adapters.BuildCommand | backend/app/adapters/base.py:113-115 | the command is the executable followed by the arguments as given |
| Adapters.BuildPackageCommand | backend/app/adapters/base.py:117-124 | `[executable] + base_args + packages` exactly when every package name is valid, else the error of the first invalid name |
| Adapters.PackageCommandIsSafeCommand | backend/app/adapters/base.py:154-156 | building a package command is building a safe command on `[executable] + base_args` |
| Adapters.PackageCommandExamples | backend/tests/test_base_adapter.py:66-73 | a valid name goes through; `rm -rf /` is refused for bad characters |
| Adapters.LStripSlash | backend/app/adapters/base.py:178 | `lstrip("/")` drops exactly the leading slashes |
| Adapters.AdapterStoragePath | backend/app/adapters/base.py:176-179 | `str(Path("adapters") / manager_id / name.lstrip("/"))`; no contract of its own, `AdapterStoragePathParts` states what it reads back as |
| Adapters.AdapterStoragePathParts | backend/app/adapters/base.py:176-179 | the cache path reads back as `adapters`, the manager id's parts and the name's parts |
| Adapters.CachePathResolves | backend/app/adapters/base.py:176-179 | with a plain manager id and a name of plain names, the cache file is `<base>/adapters/<manager_id>/<name>` |
| Adapters.CacheRoundTrip | backend/tests/test_base_adapter.py:89-96 | when the cache file is no directory and no stored file lies on the way to it: after `cache_write`, `cache_exists` is true and `cache_read` returns the data; `cache_delete` is true and the file is gone |
| Adapters.Adapter.CacheWrite | backend/app/adapters/base.py:160-162 | the store's `write` at the cache path |
| Adapters.Adapter.CacheRead | backend/app/adapters/base.py:164-166 | the store's `read` at the cache path |
| Adapters.Adapter.CacheExists | backend/app/adapters/base.py:168-170 | the store's `exists` at the cache path |
| Adapters.Adapter.CacheDelete | backend/app/adapters/base.py:172-174 | the store's `delete` at the cache path |
| RateLimit.CleanOldEntries | backend/app/core/rate_limiter.py:44-56 | cleaning keeps no more entries than it was given, and every entry it keeps is younger than the window |
| RateLimit.CleanKeepsYoung | backend/app/core/rate_limiter.py:56 | an entry survives cleaning exactly when it was recorded less than `window` seconds before now |
| RateLimit.CleanConcat | backend/app/core/rate_limiter.py:56 | cleaning works entry by entry and keeps the order of what it keeps |
| RateLimit.CleanLater | backend/app/core/rate_limiter.py:56 | an expired entry stays expired: cleaning again later is cleaning once later |
| RateLimit.CleanTotal | backend/app/core/rate_limiter.py:77-82 | cleaning never raises the request count of a window |
| RateLimit.Check | backend/app/core/rate_limiter.py:58-124 | allowed exactly when both cleaned windows are below their limits; the minute limit is checked first; a refusal records nothing and reports the limit and reset time of the window that is full; an allowance records one entry in each window and reports `limit − count − 1 ≥ 0` remaining |
| RateLimit.CheckKeepsBound | backend/app/core/rate_limiter.py:85-117 | a client within its limits stays within them after a check |
| RateLimit.LiveWithinLimit | backend/app/core/rate_limiter.py:77-85 | the requests of a client within its limits that are still alive at any time are within the limits |
| RateLimit.RateLimiter.constructor | backend/app/core/rate_limiter.py:23-42 | the limiter keeps the given limits and starts with no history, within its limits |
| RateLimit.RateLimiter.IsAllowed | backend/app/core/rate_limiter.py:58-124 | the answer and the client's new history are those of `Check` on its stored (or empty) history; every client stays within its limits |
| RateLimit.GetClientIp | backend/app/core/rate_limiter.py:126-152 | a non-empty X-Forwarded-For gives its first comma-separated element trimmed of whitespace; otherwise a non-empty X-Real-IP; otherwise the peer address; otherwise "unknown" |
| RateLimit.StripTrims | backend/app/core/rate_limiter.py:142 | `strip()` removes exactly the whitespace at both ends |
| RateLimit.MatchesExactlyInstances | backend/app/core/rate_limiter.py:291-293 | a path matches exactly when it is the pattern with every `*` replaced by a non-empty run without `/`, possibly followed by one final newline |
| RateLimit.InstanceMatches | backend/app/core/rate_limiter.py:291-293 | every such instance matches |
| RateLimit.MatchIsInstance | backend/app/core/rate_limiter.py:291-293 | every match is such an instance |
| RateLimit.LiteralPattern | backend/app/core/rate_limiter.py:291-293 | a pattern without `*` matches only itself, with or without a final newline |
| RateLimit.MatchesPattern | backend/app/core/rate_limiter.py:278-293 | `re.match("^" + pattern.replace("*", "[^/]+") + "$", path)`; no contract of its own, `MatchesExactlyInstances` states which paths match |
| RateLimit.FirstMatch | backend/app/core/rate_limiter.py:266-268 | the index found is that of a pattern in the list, at or after the start |
| RateLimit.FirstMatchIsFirst | backend/app/core/rate_limiter.py:266-268 | the pattern chosen matches and no earlier one does, or none matches |
| RateLimit.PathRateLimiter.constructor | backend/app/core/rate_limiter.py:240-254 | the seven patterns with their limits, in order, and an empty cache |
| RateLimit.PathRateLimiter.GetLimiterForPath | backend/app/core/rate_limiter.py:256-276 | None exactly when no pattern matches; otherwise the limiter with the limits of the first matching pattern, taken from the cache when one exists for those limits and otherwise made fresh and cached, so patterns with equal limits share it |
| Redaction.SanitizeData | backend/app/core/enhanced_logging.py:37-58 | objects stay objects with the same keys in order, each field holding the redaction text when its key is sensitive and its sanitised value otherwise; lists stay lists of the same length, each item sanitised; any other value is returned unchanged |
| Redaction.SanitizeRedacts | backend/app/core/enhanced_logging.py:48-54 | after sanitising, every field whose lower-cased name is sensitive holds the redaction text, at every depth |
| Redaction.SanitizeKeepsRedacted | backend/app/core/enhanced_logging.py:37-58 | data that already hides every sensitive value is left unchanged |
| Redaction.SanitizeIdempotent | backend/app/core/enhanced_logging.py:37-58 | sanitising twice is sanitising once |
| Redaction.SecretsNotInspected | backend/app/core/enhanced_logging.py:49-53 | the value of a sensitive field is never looked at: objects that differ only there sanitise alike |
| Redaction.SanitizeHeaders | backend/app/core/enhanced_logging.py:61-74 | the same headers in the same order; exactly those whose lower-cased name is sensitive are replaced by `***REDACTED***`, the others keep their values |
| Redaction.SanitizeHeadersIdempotent | backend/app/core/enhanced_logging.py:61-74 | sanitising headers twice is sanitising them once |

`_sanitize_package` (backend/app/adapters/base.py:154-156) is
`SanitizePackageName` itself. `get_snapshot` and `restore_snapshot` read
`<id>.json` through the store, so every property of `Lookup` holds for them.

## Left out

- Process spawning: `detect`, `get_version`, `run_command` and `run_command_async` of the adapter base class, and the concrete adapters.
- The HTTP routers, the application factory, the rate-limit and logging middleware, and the global singletons (`get_rate_limiter`, `get_lock_manager`, `get_operation_queue`).
- Signal and `atexit` registration in the lock manager, and its `mkdir` side effect. `_cleanup_handler` is modelled as what it does when it runs.
- Locking.LockFile: a lock file holds an object record, is unreadable, or is absent. Valid JSON that is not an object (a list, a number) is not represented; the source would then fail in `lock_data["timestamp"]` or `lock_data.get` with TypeError or AttributeError. A lock file whose bytes are not UTF-8 is taken as `Unreadable`, but `get_lock_info` catches only OSError and JSONDecodeError, so in the source the UnicodeDecodeError escapes `is_stale`, `acquire_lock` and `execute`.
- Locking.Info: gives nothing for a lock file that is not UTF-8, where the source raises UnicodeDecodeError (see `Locking.LockFile`).
- Locking.Stale: counts stale a lock file that is not UTF-8, where the source raises UnicodeDecodeError (see `Locking.LockFile`). A timestamp that is neither text nor `JInt` (a number, null) is counted stale; the source's `fromisoformat` raises TypeError there, which `is_stale` does not catch. A `JInt` timestamp stands for text without a UTC offset; an offset-aware timestamp parses, and then `datetime.now() - lock_time` raises TypeError in the source, where the model compares it.
- JsonValue.Get: the first of several fields with the same key is returned, where `json.load` keeps the last. Every record the core writes comes from a dict and has distinct keys.
- Locking.Acquire, Locking.Release: the `OSError` branches (an unwritable lock file, a failing unlink) are not modelled. The lock file may still be unreadable, which counts as stale.
- Locking.LockManager.WaitForLock: the wall clock and `time.sleep` become a finite list of clock readings, each paired with the lock file as other processes left it. The loop is bounded by that list.
- Cross-process atomicity of the lock file: each call runs alone. Other processes act only through the lock file a queued function finds after it returns.
- Storage.Written: the temporary file, `fsync` and `os.replace` are not modelled. The destination holds either the old or the new document. A directory is not stored on its own: one exists exactly when some file lies below it, so an empty directory other than the base directory is not represented, and the model never holds a file below another file.
- Storage: symlinks are not modelled; `resolve()` is lexical.
- Storage.Written, Storage.Removed: OSError from the file system (permission denied, disk full) in `mkdir`, the temporary file, `os.replace` or `unlink` is not modelled; every write or delete that the directory's shape allows succeeds.
- Storage.Written: when a stored file lies on the way to the target, the error is FileExistsError when it is the target's parent and NotADirectoryError otherwise, as `mkdir(parents=True, exist_ok=True)` raises; the contract states only that such a write fails and changes nothing.
- Snapshots.Listing: a directory whose name ends in `.json`, directly in the snapshot directory, is not listed; the source's `glob` lists it and reading it fails with IsADirectoryError.
- Retention.PurgedNames, Retention.RetainedLarge: the names deleted are required to name no directory; deleting a directory fails with IsADirectoryError in the source and in `Storage.Removed`. In a catalogue every listed name is a stored file, so `Retention.RetentionKeepsNewest` needs no such condition.
- Adapters.CacheRoundTrip: the round trip is stated for a cache path that is no directory and has no stored file on the way to it; otherwise `cache_write` fails, as `Storage.Written` states.
- Creation.CreatedSnapshot: the new snapshot is shown to survive retention only when its `created_at` is later than that of every stored snapshot, which a clock that never goes back gives. With ten newer snapshots stored, the source deletes the snapshot it has just created, and so does the model.
- Floating-point values in JSON documents are not modelled.
- Time:
  - lock timestamps are modelled as `JInt` seconds, where the source uses ISO 8601 text;
  - snapshot `created_at` is modelled as `JInt` seconds; any other value stands for text `fromisoformat` cannot parse;
  - clock readings in the rate limiter are whole seconds, where the source uses `time.time()` floats.
- SnapshotRecords.ValidClock: years outside 1000–9999 are excluded, so that `%Y` always prints four digits.
- SnapshotRecords.TimesError, Snapshots.Listing: whether a `created_at` carries a UTC offset is not modelled. A directory holding both an offset-naive timestamp ("2024-01-01T00:00:00") and an offset-aware one, the kind `_now_iso` writes, makes the source's sort raise TypeError, because the two kinds of `datetime` cannot be compared. `list_snapshots` then fails, `_enforce_retention` fails with it, and `create_snapshot` fails after writing. The model compares every `JInt` time, so it lists and prunes such a directory.
- SnapshotRecords.SortNewestFirst: stability, the order among snapshots with equal `created_at`, is not stated.
- SnapshotRecords.SummaryFromRecord: a non-string `id` is reported as a TypeError. The source would build a summary whose `id` is not a string.
- Snapshots.SnapshotManager.GenerateSnapshotId: the unbounded retry loop runs over a finite list of candidate draws, and one of them is required to be fresh. A loop with no fresh candidate does not terminate in the source.
- Snapshots.SnapshotManager.CreateSnapshot: a package map is a Python dict, so its keys are taken to be distinct.
- Retention.RetentionKeepsNewest: the theorem assumes a catalogue, a directory in which every snapshot file holds a record naming that file, as every record `create_snapshot` writes does. Other directories are covered only by `Snapshots.Retained`: files are only removed.
- Constructors with defaults:
  - `BaseAdapter`, `SnapshotManager` and `JSONStorage` fall back on stores below `~/.package-audit`; here the caller passes the store;
  - `RateLimiter`'s default limits (60 and 1000) are not modelled; the caller gives them.
- RateLimit.RateLimiter.IsAllowed:
  - the mutex is not modelled;
  - the clock readings of the cleaning and of the check are taken as one;
  - the log lines are not modelled; the `path` argument only reaches the log.
- RateLimit.MatchesPattern: characters other than `*` are taken literally. The regular-expression metacharacters that would behave otherwise appear in none of the limiter's patterns.
- RateLimit.PathRateLimiter: the cache key `f"{per_min}_{per_hour}"` is modelled as the pair of limits. The text is different for every pair, so the two keys agree.
- RateLimit.GetClientIp: header names are held in lower case, as the server delivers them, so the case-insensitive lookup is an exact match.
- Redaction.SanitizeData:
  - object keys are strings; a Python dict with other keys fails in `key.lower()`;
  - tuples and other containers are not modelled.
- Text.Lower: only the characters whose lower case is a single ASCII character are lower-cased, which decides membership in the all-ASCII sensitive-name sets exactly as Python's `str.lower()` does.
- The rest of `enhanced_logging.py` (the logging middleware and `OperationLogger`) is not modelled.
