# deft: storage and indexing core, modelled in Dafny

deft is a small tracker for "features", or work items. Each feature has a unique name, a
status, a priority inside its status, a description and free-form properties. The
tracker keeps every feature as small text files under a data directory.

This project models the storage and indexing core of deft:

- **Priority buckets.** `Bucket` (src/deft/indexing.py) keeps the features of one status
  in priority order. Append, insert, remove and change-priority rewrite the neighbours'
  `priority` fields so that the ranks stay dense, 1..n.
- **The feature tracker, data format 2.0.** `FeatureTracker` (src/deft/tracker.py) maps
  each status to a bucket, caches loaded features and keeps a set of features to save. A
  feature's `.status` file is one line: the priority right-aligned in eight characters, a
  space, then the status. The tracker opens only data in the current format version.
- **Storage backends.**
  - The in-memory `MemStorage` (src/deft/storage/memory.py) maps paths to text, with `None`
    marking a directory. It has a read-only mode.
  - Its older copy lives in src/deft/memstorage.py.
  - The copy-on-write `OverlayStorage` (src/deft/storage/overlay.py) keeps a map of deltas
    over a storage that it never writes.
  - The write-back `Cache` (src/deft/storage.py) sits over a storage.
- **Small encoders and state updates.**
  - Property lists (src/deft/properties.py).
  - The lines format and the aligned table writer (src/deft/formats.py, with a copy in
    src/deft/cli.py).
  - Warning sinks (src/deft/warn.py).
  - The format upgrader from 1.0 to 2.0 (src/deft/upgrade.py).
  - The fixed-width `Ordering` buffer (src/deft.py).
  - The editor lookup and feature-table building of src/deft/cli.py.

Modules follow the source files:

| module | source |
|---|---|
| `Indexing` | src/deft/indexing.py |
| `Features` | the `Feature` record of src/deft/tracker.py |
| `Tracker` | src/deft/tracker.py |
| `Memory` | src/deft/storage/memory.py |
| `LegacyMemStorage` | src/deft/memstorage.py |
| `Overlay` | src/deft/storage/overlay.py |
| `StorageCache` | the `Cache` class of src/deft/storage.py |
| `Properties` | src/deft/properties.py |
| `Upgrade` | src/deft/upgrade.py |
| `Formats` | src/deft/formats.py |
| `Warn` | src/deft/warn.py |
| `Deft` | src/deft.py |
| `Cli` | src/deft/cli.py |

Five shared modules support them:

- `Wrappers` holds `Option`, `Result`, `Outcome` and the Python exceptions as an `Error`
  datatype.
- `Text` holds integer formatting and `int()` parsing, `strip`, padding, `join`,
  `splitlines`, string order and `sorted`.
- `PyValues` holds property values with Python's `str` and `repr`.
- `Paths` holds `split`, `os.path.join`, `dirname` and `basename`, the overlay's `walk`, and
  `fnmatch` restricted to literals and `*`.
- `Streams` models `StringIO`.

Classes model the objects the source changes in place:

- `Bucket` updates its `features` list and each feature's `priority` field.
- `FeatureTracker` holds `index`, `loaded` and `dirty` fields, plus the storage.
- `MemStorage` holds `files`, `readCounts` and `readonly`.
- `OverlayStorage` holds `deltas`.
- `Cache` holds `cached`, `removed` and `dirty`.
- `PropertyDict`, `WarningRecorder` and `Ordering` also hold their state as fields.

Each state-changing method states its new state through a specification function of the old
state, and the lemmas about those functions state the source's promises. Errors the source
raises are `Err`/`Fail` values carrying the same exception kind and message.

Some behaviour of the code that the model keeps:

- The tracker (format 2.0) indexes features by status in `Bucket`s, and its load stops at
  the first record it cannot read.
- `create` of a name already in use raises `UserError` with the message "a feature already
  exists with name: <name>".
- The memory storage's `rename` refuses a path for which `isdir` holds, that is, one with
  some stored path one segment below it. An empty directory marker can therefore be renamed.

## Model

| member | source | states |
|---|---|---|
| `Indexing.Bucket.constructor` | src/deft/indexing.py:7-8 | the bucket holds the given features sorted by ascending priority (`SortByPriority` over each feature's priority) |
| `Indexing.SortByPriority` | src/deft/indexing.py:8 | the result is sorted by priority and holds only input features |
| `Indexing.SortByPriorityPermutes` | src/deft/indexing.py:8 | sorting is a permutation: the multiset of features is unchanged |
| `Indexing.InsertByPriority` | src/deft/indexing.py:8 | inserting one feature into a sorted list keeps it sorted and adds nothing else |
| `Indexing.InsertByPriorityPermutes` | src/deft/indexing.py:8 | that insertion adds exactly the one feature to the multiset |
| `Indexing.PrioritiesOf` | src/deft/indexing.py:8 | the sort key: a map holding exactly the given features, each with its current `priority` |
| `Indexing.Bucket.Length` | src/deft/indexing.py:10-11 | `len` is the number of stored features |
| `Indexing.Bucket.Get` | src/deft/indexing.py:13-14 | `bucket[n]` is the n-th feature; a negative n counts from the end; any other n gives IndexError |
| `Indexing.Clamp` | src/deft/indexing.py:26 | Python's slice-bound clamping: a bound in range is kept, a negative one counts from the end, the result never exceeds the length |
| `Indexing.Position` | src/deft/indexing.py:31 | the index `del features[i]` deletes exists exactly for -n <= i < n, and is i or i + n |
| `Indexing.InsertAt` | src/deft/indexing.py:25 | `list.insert`: the new element sits at k, earlier elements keep their place, later ones move up by one |
| `Indexing.DeleteAt` | src/deft/indexing.py:31 | `del`: earlier elements keep their place, later ones move down by one |
| `Indexing.InsertAtPermutes` | src/deft/indexing.py:25 | insertion adds exactly one element to the multiset |
| `Indexing.DeleteAtPermutes` | src/deft/indexing.py:31 | deletion removes exactly the deleted element from the multiset |
| `Indexing.InsertAtDistinct` | src/deft/indexing.py:25 | inserting a new element keeps a list duplicate-free |
| `Indexing.DeleteAtDistinct` | src/deft/indexing.py:31 | deleting keeps a list duplicate-free, and the deleted element is gone |
| `Indexing.AppendSpec` | src/deft/indexing.py:19-21 | `append` puts the feature last |
| `Indexing.Bucket.Append` | src/deft/indexing.py:19-21 | the list becomes the old list plus the feature; the feature's priority becomes the new length; no other priority changes; the feature is the one recorded |
| `Indexing.AppendKeepsDense` | src/deft/indexing.py:19-21 | append of a feature not in the bucket keeps ranks dense (`features[i].priority == i + 1`) |
| `Indexing.InsertSpec` | src/deft/indexing.py:23-27 | insert changes priorities only of features the ranking knows |
| `Indexing.Bucket.Insert` | src/deft/indexing.py:23-27 | the feature goes to index priority-1 (clamped as Python does); every later feature's priority grows by one; those are the recorded features |
| `Indexing.InsertKeepsDense` | src/deft/indexing.py:23-27 | with a target in 1..n+1, insert keeps ranks dense and puts the feature at index priority-1 |
| `Indexing.InsertedAt` | src/deft/indexing.py:26-27 | after the shift, the feature at index i of the new list has priority i + 1 |
| `Indexing.ShiftFrom` | src/deft/indexing.py:26-27 | the loop adds delta to the priority of every feature from start on; those are the recorded features |
| `Indexing.Bump` | src/deft/indexing.py:26-27 | shifting priorities keeps the set of ranked features |
| `Indexing.BumpCounts` | src/deft/indexing.py:26-27 | each feature's priority moves by delta times the number of its occurrences in the shifted range |
| `Indexing.RemoveSpec` | src/deft/indexing.py:29-33 | remove fails with IndexError exactly when priority-1 is outside Python's index range; otherwise the list is one shorter and the same features are ranked |
| `Indexing.Bucket.Remove` | src/deft/indexing.py:29-33 | on IndexError nothing changes; otherwise the element at priority-1 is deleted, every later feature's priority drops by one, and those are recorded |
| `Indexing.RemoveKeepsDense` | src/deft/indexing.py:29-33 | remove of a member of a dense bucket succeeds, keeps ranks dense, and removes exactly that feature from the multiset |
| `Indexing.DeleteKeepsDense` | src/deft/indexing.py:31-33 | deleting at any index and shifting the rest down keeps ranks dense |
| `Indexing.DenseDistinct` | src/deft/indexing.py:19-44 | a bucket with dense ranks holds no feature twice |
| `Indexing.ChangePrioritySpec` | src/deft/indexing.py:35-44 | change_priority fails exactly when its remove fails; otherwise the length is unchanged and the moved feature is recorded |
| `Indexing.Bucket.ChangePriority` | src/deft/indexing.py:35-44 | remove, set the priority, insert: the list and priorities become those of `ChangePrioritySpec`, and an error leaves everything unchanged |
| `Indexing.ChangePriorityMoves` | src/deft/indexing.py:35-44 | with a target in 1..n on a dense bucket: the result is a permutation of the same features, dense, with the feature at index target-1 |
| `Indexing.DenseIgnoresOthers` | src/deft/indexing.py:35-44 | setting the priority of a feature outside the bucket, as change_priority does to the removed feature, keeps the remaining ranks dense |
| `Features.Feature.constructor` | src/deft/tracker.py:199-203 | a feature holds the given name, status and priority |
| `Features.Feature.RecordStatus` | src/deft/tracker.py:211-213 | `_record_status` sets the status; the tracker's caller adds the feature to its dirty set |
| `Features.Feature.RecordPriority` | src/deft/tracker.py:223-225 | `_record_priority` sets the priority; the bucket reports the feature so that the tracker marks it dirty |
| `Tracker.DefaultConfig` | src/deft/tracker.py:22-26 | the config has exactly the keys format, datadir and initial_status; it passes the format check and carries the given values |
| `Tracker.FormatCheck` | src/deft/tracker.py:64-68 | passes iff the config has a format key whose value is '2.0' |
| `Tracker.FormatStatus` | src/deft/tracker.py:60 | the layout of a record: a field of max(8, number of digits) characters, spaces then the decimal priority, then one space, then the status |
| `Tracker.ParseStatus` | src/deft/tracker.py:174-176 | `int(text[0:8])` and `text[9:]` with clamping slices: the priority is what `int()` makes of the first eight characters, and a ValueError comes exactly when `int()` rejects them, with the message `int()` gives (`PyValues.IntLiteralError`) |
| `Tracker.PriorityFieldBlanks` | src/deft/tracker.py:175 | `int()` accepts blanks between the sign and the digits, so "-      5" loads as -5, and its error message shows the field without its leading blanks |
| `PyValues.IntLiteralError` | src/deft/tracker.py:175 | the ValueError `int()` raises on a string it rejects: without a NUL, the message shows the string after its leading blanks; when the text before a NUL is a number, the message is "null byte in argument for int()" |
| `PyValues.BeforeNul` | src/deft/tracker.py:175 | the part of a string `int()` parses: the longest prefix without a NUL, ending where the first NUL is |
| `PyValues.NulMessages` | src/deft/tracker.py:175 | "12" then a NUL gives the null-byte message; " a" then a NUL then "b" shows only 'a' |
| `Tracker.PriorityFieldNul` | src/deft/tracker.py:175 | a priority field of digits followed by a NUL fails with the null-byte ValueError |
| `Tracker.StatusRoundTrip` | src/deft/tracker.py:184-186 | a record written by `_format_status` reads back the same priority and status, for priorities from -9999999 to 99999999 |
| `Tracker.WidePriorityMisread` | src/deft/tracker.py:60 | a nine-digit priority overflows its field: 123456789 and "new" read back as 12345678 and " new" |
| `Tracker.DropLast` | src/deft/tracker.py:192 | `s[:-n]`: the last n characters dropped, or "" when n is 0 or exceeds the length |
| `Tracker.NameToPath` | src/deft/tracker.py:188-189 | the record path of a name lies in the data directory: its basename is name + suffix when that holds no '/' |
| `Tracker.PathToName` | src/deft/tracker.py:191-192 | the name is a prefix of the path's basename, free of '/', and exactly the suffix's length shorter when the basename is at least as long as a non-empty suffix |
| `Tracker.NamePathRoundTrip` | src/deft/tracker.py:188-192 | `_path_to_name(_name_to_path(n)) == n` for names and suffixes without '/' |
| `Tracker.LoadedAll` | src/deft/tracker.py:167-168 | loading a list of paths succeeds iff every record loads, giving each record's priority and status in order |
| `Tracker.LoadedAllStops` | src/deft/tracker.py:167-168 | the first failing prefix decides the result of the whole load |
| `Tracker.LoadedAllFirstError` | src/deft/tracker.py:167-168 | the load fails with the error of the first record that does not load |
| `Tracker.WithStatus` | src/deft/tracker.py:161-162 | the features grouped under status s are exactly the listed features with that status |
| `Tracker.WithStatusSnoc` | src/deft/tracker.py:161-162 | adding one feature extends only its own status's group, at the end |
| `Tracker.GroupByStatus` | src/deft/tracker.py:159-162 | the loop builds a map whose keys are exactly the statuses present, each mapped to its features in list order |
| `Tracker.NewBuckets` | src/deft/tracker.py:164-165 | one fresh, distinct bucket per status, holding that group sorted by priority |
| `Tracker.EnumerationStep` | src/deft/tracker.py:89-90 | taking one element out of the set still to visit extends the visiting order |
| `Tracker.FeatureTracker.constructor` | src/deft/tracker.py:70-74 | a tracker with the config and storage, an empty index, nothing loaded and nothing dirty |
| `Tracker.FeatureTracker.FeaturesWithStatus` | src/deft/tracker.py:120-121 | `setdefault`: the existing bucket, or a fresh empty one that is added to the index |
| `Tracker.FeatureTracker.SaveFeature` | src/deft/tracker.py:184-186 | writes `_format_status(status, priority)` to the feature's `.status` path, or fails with the storage's error and writes nothing |
| `Tracker.FeatureTracker.LoadFeature` | src/deft/tracker.py:170-179 | a cached feature is returned as is; otherwise the record is read and parsed into a fresh feature, which is cached; a failing read or parse caches nothing |
| `Tracker.FeatureTracker.FeatureNamed` | src/deft/tracker.py:114-118 | UserError "no feature named <name>" when there is no record file; otherwise what `LoadFeature` gives |
| `Tracker.FeatureTracker.AppendTo` | src/deft/tracker.py:104-106 | the status's bucket (made if missing) gets the feature last, with priority its new length; other buckets are unchanged |
| `Tracker.FeatureTracker.Enlist` | src/deft/tracker.py:104-108 | a fresh feature with the name and status is appended to its bucket, cached and marked dirty |
| `Tracker.FeatureTracker.CreateWithStatus` | src/deft/tracker.py:104-112 | as `Enlist`, then the record and description files are written; a storage error is returned after the in-memory change, as in the source |
| `Tracker.FeatureTracker.Create` | src/deft/tracker.py:97-112 | UserError and no change when a record file exists; KeyError when no status is given and the config has no initial_status; otherwise `CreateWithStatus` with the given or initial status |
| `Tracker.FeatureTracker.Chained` | src/deft/tracker.py:124 | the chain holds exactly the features of the listed statuses' buckets |
| `Tracker.FeatureTracker.ChainedBlock` | src/deft/tracker.py:124 | each listed bucket appears as one block, in bucket order, after the chained buckets listed before it |
| `Tracker.FeatureTracker.AllFeaturesInStatusOrder` | src/deft/tracker.py:123-124 | `all_features` takes the buckets in ascending status order: the k-th status's bucket is one block, in priority order, after the features of the smaller statuses |
| `Tracker.FeatureTracker.ChangePriority` | src/deft/tracker.py:151-153 | the feature's bucket changes as `ChangePrioritySpec` says; other buckets are unchanged; every re-ranked feature becomes dirty; an IndexError changes nothing |
| `Tracker.FeatureTracker.RemoveFrom` | src/deft/tracker.py:143-146 | the bucket of a status (made if missing) loses the feature as `RemoveSpec` says; other buckets are unchanged |
| `Tracker.FeatureTracker.MoveTo` | src/deft/tracker.py:147-148 | the new bucket gets the feature last, with priority its new length and the new status; the feature and the re-ranked features become dirty |
| `Tracker.FeatureTracker.Detach` | src/deft/tracker.py:143-146 | both buckets exist afterwards; the old one loses the feature as `RemoveSpec` says; the new one is unchanged |
| `Tracker.FeatureTracker.ChangeStatus` | src/deft/tracker.py:142-148 | the feature leaves its old bucket and goes last in the new one, with the new status; it and the re-ranked features become dirty; an IndexError changes nothing |
| `Tracker.FeatureTracker.RemoveFiles` | src/deft/tracker.py:138-139 | both the `.status` and `.description` files are removed, or the storage error is returned with the files unchanged |
| `Tracker.FeatureTracker.Unindex` | src/deft/tracker.py:131-136 | an IndexError from the bucket changes nothing; otherwise the feature leaves its bucket, the features behind it close ranks and become dirty, and the feature leaves the loaded map and the dirty set; no other bucket changes |
| `Tracker.FeatureTracker.PurgeLoaded` | src/deft/tracker.py:131-139 | `Purged`: an IndexError changes nothing; otherwise `Unindex`'s bucket, priority, loaded and dirty effects, then the record and the description are removed from storage, where a read-only storage fails with the files unchanged but the in-memory effects kept; no other bucket changes |
| `Tracker.FeatureTracker.Purge` | src/deft/tracker.py:126-139 | a record that does not load fails with its error and changes nothing; otherwise the feature purged is the loaded one, or a fresh one with the record's name, status and priority, and the state changes as `Purged` states against the state before the call, with the priorities its bucket held then; no other bucket changes |
| `Tracker.FeatureTracker.SaveNext` | src/deft/tracker.py:89-90 | one more dirty feature's record is written, extending the run of saved records |
| `Tracker.FeatureTracker.SaveStep` | src/deft/tracker.py:89-90 | one loop step: one more feature is taken from the set still to save and written |
| `Tracker.FeatureTracker.SaveEach` | src/deft/tracker.py:89-90 | the loop writes each feature's record once, in some order; on failure every earlier write stands and the loop stops |
| `Tracker.FeatureTracker.Save` | src/deft/tracker.py:88-91 | every dirty feature's record is written and the cache is emptied; a failure leaves the cache and dirty set as they were |
| `Tracker.FeatureTracker.LoadNext` | src/deft/tracker.py:168 | one loop step: the next listed path is loaded and cached |
| `Tracker.FeatureTracker.LoadAll` | src/deft/tracker.py:168 | every listed path is loaded and cached in list order, or the first error is returned |
| `Tracker.FeatureTracker.LoadFeatures` | src/deft/tracker.py:167-168 | loads every `datadir/*.status` path in sorted order, each feature parsed from its own record |
| `Tracker.FeatureTracker.BuildIndex` | src/deft/tracker.py:164-165 | the index has one fresh bucket per group, sorted by priority |
| `Tracker.FeatureTracker.IndexFeatures` | src/deft/tracker.py:158-165 | after loading, the index keys are exactly the statuses present, and each bucket holds that status's features sorted by priority |
| `Tracker.NewTracker` | src/deft/tracker.py:64-75 | a config not at format '2.0' is refused with the format check's error; a missing datadir gives KeyError; otherwise the tracker is indexed from storage or fails with the first load error |
| `Tracker.OpenTracker` | src/deft/tracker.py:70-75 | a tracker past the format check is indexed from its storage's records, leaving the files unchanged |
| `Text.ParseIntOfIntToStr` | src/deft/tracker.py:175 | `int(str(i)) == i` |
| `Text.ParseIntAfterSign` | src/deft/tracker.py:175 | `int()` skips blanks between the sign and the digits ("-      5" is -5, "+ 5" is 5) and rejects a letter |
| `PyValues.RejectedLetterMessage` | src/deft/tracker.py:175 | the ValueError for "  x" shows 'x', without the leading blanks |
| `Text.ParseIntOfPadded` | src/deft/tracker.py:175 | `int()` ignores the left padding that `_format_status` adds |
| `Text.SortedKeys` | src/deft/tracker.py:124 | `sorted` of a set of strings: the same elements, strictly ascending |
| `Formats.LoadLines` | src/deft/formats.py:32-33 | `splitlines`: no line holds a line break, and the text is empty exactly when there are no lines |
| `Formats.LinesText` | src/deft/formats.py:35-38 | the text save writes is as long as the lines together plus one terminator per line |
| `Formats.LinesTextSnoc` | src/deft/formats.py:35-38 | saving one more line appends that line and a "\n" to the text |
| `Memory.ListFiles` | src/deft/storage/memory.py:110-120 | `list(pattern)`: strictly sorted, holding exactly the stored paths whose segments match the pattern's pairwise; the older storage of src/deft/memstorage.py lists the same way |
| `Memory.WithDirs` | src/deft/storage/memory.py:122-127 | makedirs keeps every stored path and marks the path itself as a directory; its only error is the RuntimeError for exceeding the recursion depth |
| `Memory.OpenResult` | src/deft/storage/memory.py:57-66 | open succeeds only on a path that is not a directory marker and only in mode 'r' or 'w'; a read gives a stream over the stored text that stores nothing on close; a write needs a writeable storage and gives an empty stream that stores under the path |
| `Memory.RenameAsWritten` | src/deft/storage/memory.py:89-101 | as written: success needs an existing source that is no directory, an absent target and a writeable storage, and moves the content to the target; a failure leaves the files as they were or without the source |
| `Memory.RenameResult` | src/deft/storage/memory.py:89-101 | corrected: success needs the same conditions, moves the content to the target and keeps every other stored path |
| `Memory.MemStorage.Exists` | src/deft/storage/memory.py:54-55 | a path that does not exist gives "does not exist" on open for reading; one that exists opens, or is a directory |
| `Memory.MemStorage.IsDir` | src/deft/storage/memory.py:47-49 | for a literal path, isdir holds exactly when some stored path lies one segment below it |
| `Memory.MemStorage.List` | src/deft/storage/memory.py:110-120 | strictly sorted, holding exactly the stored paths whose segments match the pattern's |
| `Memory.MemStorage.constructor` | src/deft/storage/memory.py:33-37 | empty files and read counts, with the given base directory and read-only flag |
| `Memory.MemStorage.Open` | src/deft/storage/memory.py:57-66 | IOError for a directory marker in any mode; reading a missing path gives IOError; a successful read counts one read; writing in read-only mode gives IOError, and otherwise makes the parent directories and gives a stream that stores on close; any other mode gives ValueError |
| `Memory.MemStorage.OpenRead` | src/deft/storage/memory.py:68-77 | IOError for a missing path; otherwise a stream over the content, and the read count grows by one |
| `Memory.MemStorage.OpenWrite` | src/deft/storage/memory.py:79-87 | the read-only check, then directory markers for every ancestor, then an empty stream that stores under the path |
| `Memory.MemStorage.Close` | src/deft/storage/memory.py:18-20 | closing a write stream stores its text under its path; a read stream stores nothing |
| `Memory.MemStorage.Rename` | src/deft/storage/memory.py:89-101 | IOError when the source is missing, the target exists or the source is a directory; otherwise the content moves (corrected for read-only mode, see Findings) |
| `Memory.MemStorage.Remove` | src/deft/storage/memory.py:103-108 | read-only mode gives IOError; otherwise p and every path one segment below it go |
| `Memory.MemStorage.MakeDirs` | src/deft/storage/memory.py:122-127 | read-only mode gives IOError; otherwise a directory marker for the path and each ancestor |
| `Memory.MemStorage.EnterWriteable` | src/deft/storage/memory.py:137 | entering `writeable` clears the read-only flag |
| `Memory.MemStorage.ExitWriteable` | src/deft/storage/memory.py:141 | leaving `writeable` sets the read-only flag |
| `Memory.SaveText` | src/deft/storage.py:18-20 | `StorageFormats.save_text` over the memory storage's `open`: the text is stored under the path, with its ancestors marked, or the open error is returned with the files unchanged |
| `Memory.LoadText` | src/deft/storage.py:22-24 | `StorageFormats.load_text` over the memory storage's `open`: the stored text, or IOError for a missing path or a directory |
| `Memory.PoppedStep` | src/deft/storage/memory.py:106-107 | popping one more listed path removes just that path |
| `Memory.PoppedBelow` | src/deft/storage/memory.py:106-108 | the removal loop followed by popping p leaves exactly `RemovedFiles` |
| `Memory.WithDirsMarksPrefixes` | src/deft/storage/memory.py:122-127 | `makedirs(p)` marks exactly the walked prefixes of p as directories and keeps every other path |
| `Memory.OpenWriteMarksAncestors` | src/deft/storage/memory.py:79-87 | opening for write on a writeable storage succeeds, marks exactly the ancestors of the path and keeps every other path |
| `Memory.WriteCloseRead` | src/deft/storage/memory.py:57-87 | text written through `open(p, "w")` and closed is what a later `open(p)` reads |
| `Memory.RemoveOneLevel` | src/deft/storage/memory.py:103-108 | `remove(p)` deletes p and exactly the paths p/x with x free of '/', and keeps the rest unchanged |
| `Memory.RenameMoves` | src/deft/storage/memory.py:89-101 | on a writeable storage, rename succeeds iff the source exists, the target does not and the source is no directory; the target then holds the source's content, the source is gone, and the target's ancestors are marked |
| `Memory.RenameReadOnlyLosesFile` | src/deft/storage/memory.py:99-100 | as written, a read-only rename of "notes" to "archive/notes" fails and the file is gone |
| `Memory.RenameCorrectionAgrees` | src/deft/storage/memory.py:89-101 | the corrected rename agrees with the code as written on every success and on every error raised |
| `LegacyMemStorage.MemStorageIO.constructor` | src/deft/memstorage.py:9-12 | the stream is bound to its storage and path and starts at the given content |
| `LegacyMemStorage.MemStorageIO.Write` | src/deft/memstorage.py:8-10 | writing goes through `StringIO.write` |
| `LegacyMemStorage.MemStorageIO.Read` | src/deft/memstorage.py:8-10 | reading goes through `StringIO.read` |
| `LegacyMemStorage.MemStorageIO.Close` | src/deft/memstorage.py:14-16 | closing stores the stream's text under its path in its storage |
| `LegacyMemStorage.MemStorage.constructor` | src/deft/memstorage.py:26-28 | empty files with the given base directory |
| `LegacyMemStorage.MemStorage.Exists` | src/deft/memstorage.py:33-34 | a literal path exists exactly when listing it as a pattern finds it |
| `LegacyMemStorage.MemStorage.List` | src/deft/memstorage.py:50-60 | strictly sorted, holding exactly the stored paths whose segments match the pattern's |
| `LegacyMemStorage.MemStorage.OpenRead` | src/deft/memstorage.py:36-39 | IOError for a missing path; otherwise a fresh stream over its content |
| `LegacyMemStorage.MemStorage.OpenWrite` | src/deft/memstorage.py:41-43 | directory markers for every ancestor, then a fresh empty stream for the path |
| `LegacyMemStorage.MemStorage.Remove` | src/deft/memstorage.py:45-48 | p and every path one segment below it go; an absent p changes nothing else |
| `LegacyMemStorage.MemStorage.MakeDirs` | src/deft/memstorage.py:62-65 | a directory marker for the path and each ancestor |
| `Paths.Split` | src/deft/storage/overlay.py:8-9 | `path_to_elts`: at least one segment, none containing '/' |
| `Paths.JoinSplit` | src/deft/storage/overlay.py:8-12 | joining the split segments with '/' gives the path back |
| `Paths.SplitJoin` | src/deft/storage/overlay.py:8-12 | splitting a join of '/'-free segments gives the segments back |
| `Paths.WalkYieldsPrefixes` | src/deft/storage/overlay.py:14-22 | `walk(p)` yields one prefix per segment, from the first segment to p itself |
| `Paths.GlobLiteral` | src/deft/storage/overlay.py:134 | `fnmatch` with a pattern free of '*' is string equality |
| `Paths.GlobStar` | src/deft/storage/overlay.py:134 | '*' matches every string |
| `Paths.GlobPrefixStar` | src/deft/storage/overlay.py:107 | `q*` matches exactly the strings that start with q, '/' included |
| `Paths.OneLevelBelow` | src/deft/storage/memory.py:106 | segment-wise matching of `p/*` holds exactly for p/x with x free of '/' |
| `Paths.SegmentsMatchLiteral` | src/deft/memstorage.py:50-60 | a pattern free of '*' matches segment by segment exactly the path equal to it |
| `Paths.DirnameDropsLastSegment` | src/deft/storage/memory.py:125-127 | `dirname` drops the last segment, so the makedirs recursion visits the walked prefixes |
| `Overlay.OpenOver` | src/deft/storage/overlay.py:124-127 | opening a path whose delta is a Removal fails; only writing touches the deltas |
| `Overlay.ListOver` | src/deft/storage/overlay.py:132-138 | the union of underlay matches and delta matches, restricted to paths that exist through the overlay |
| `Overlay.MakeDirsOver` | src/deft/storage/overlay.py:140-146 | the makedirs loop keeps every delta, and fails only with an IOError at some walked prefix |
| `Overlay.MakeDirsStep` | src/deft/storage/overlay.py:141-146 | one turn of the loop: a missing prefix gets a DirectoryAddition, a file stops the loop with IOError, a directory is passed over |
| `Overlay.RemovedDeltas` | src/deft/storage/overlay.py:102-108 | the evident remove(p) (corrected, see Findings): no delta matches `p/*`, p maps to a Removal, every other delta that does not match is kept with its value |
| `Overlay.FirstMatch` | src/deft/storage/overlay.py:105-106 | the first key in dict order that matches the pattern: it matches and no earlier key does |
| `Overlay.RemoveAsWritten` | src/deft/storage/overlay.py:102-108 | remove(p) as written: p becomes a Removal; with no key matching `p/*` nothing else changes and no error; otherwise exactly one matching key is deleted and RuntimeError "dictionary changed size during iteration" is raised |
| `Overlay.RemoveAsWrittenLeavesDeltas` | src/deft/storage/overlay.py:102-108 | as written, remove leaves the same deltas as the evident remove exactly when at most one key matches `p/*` |
| `Overlay.RemoveAsWrittenExample` | src/deft/storage/overlay.py:102-108 | with a/x and a/y below a, remove(a) as written deletes a/x, raises RuntimeError and keeps a/y; the evident remove keeps only the Removal |
| `Overlay.ChildAfterRecreate` | src/deft/storage/overlay.py:96-97 | once a is a directory again, the a/y left behind exists, and without it a/y does not |
| `Overlay.RenameOver` | src/deft/storage/overlay.py:110-122 | success needs an existing source that is no directory and an absent target; every delta outside the source and its subtree is kept |
| `Overlay.OverlayStorage.Exists` | src/deft/storage/overlay.py:96-97 | a path exists through the overlay exactly when every walked prefix and the path itself resolve to existing deltas |
| `Overlay.OverlayStorage.IsDir` | src/deft/storage/overlay.py:99-100 | without a delta, the underlay's isdir; a DirectoryAddition is a directory; a Removal or an Addition is not |
| `Overlay.OverlayStorage.List` | src/deft/storage/overlay.py:132-138 | every listed path exists, and every existing path that matches in the underlay or among the deltas is listed |
| `Overlay.OverlayStorage.constructor` | src/deft/storage/overlay.py:89-91 | the given underlay and no deltas |
| `Overlay.OverlayStorage.Remove` | src/deft/storage/overlay.py:102-108 | p becomes a Removal and every delta matching `p/*` is discarded (the corrected behaviour, see Findings) |
| `Overlay.OverlayStorage.Rename` | src/deft/storage/overlay.py:110-122 | IOError when the source is missing, is a directory, or the target exists; otherwise the parents are made, the target gets the source's delta, and the source is removed |
| `Overlay.OverlayStorage.Open` | src/deft/storage/overlay.py:124-127 | for writing the parent directories are made first; then the path's delta opens, and a written stream stores under the opened path (`OpenedPath`, the corrected behaviour); the underlay is never written |
| `Overlay.OverlayStorage.Close` | src/deft/storage/overlay.py:48-52 | closing a write stream stores its text as an Addition |
| `Overlay.OverlayStorage.Store` | src/deft/storage/overlay.py:160-161 | `_store` maps the path to an Addition holding the data |
| `Overlay.OverlayStorage.MakeDirs` | src/deft/storage/overlay.py:140-146 | the loop over the walked prefixes adds a DirectoryAddition for each missing one and fails at the first prefix that is a file |
| `Overlay.RefFromExists` | src/deft/storage/overlay.py:148-152 | `_ref` resolves to an existing delta iff every walked prefix and the path itself resolve to existing deltas |
| `Overlay.RefExists` | src/deft/storage/overlay.py:96-97 | `exists(p)` is false as soon as any prefix of p resolves to something that does not exist |
| `Overlay.MakeDirsKeepsExisting` | src/deft/storage/overlay.py:140-146 | makedirs only adds DirectoryAdditions for missing prefixes and keeps every other delta |
| `Overlay.MakeDirsOutcome` | src/deft/storage/overlay.py:140-146 | on success every prefix exists as a directory; on failure some prefix exists as a file |
| `Overlay.RemoveHidesSubtree` | src/deft/storage/overlay.py:102-108 | after remove(p), neither p nor anything below it exists, and deltas outside the subtree are kept |
| `Overlay.RenameMovesDelta` | src/deft/storage/overlay.py:110-122 | a successful rename needs an existing source and an absent target, and leaves the target with the source's delta and the source as a Removal |
| `Overlay.WriteThenRead` | src/deft/storage/overlay.py:160-161 | a write through the overlay installs an Addition for the opened path, and a later read gives the text back |
| `Overlay.RenamedWriteLandsOnOldPath` | src/deft/storage/overlay.py:81-85 | as written, a write to a renamed path is stored under the old path; the corrected overlay stores it under the new one |
| `StorageCache.Cache.constructor` | src/deft/storage.py:81-85 | nothing cached, removed or dirty |
| `StorageCache.Cache.Exists` | src/deft/storage.py:87-88 | a cached path exists; a removed, uncached one does not; any other exists exactly when stored |
| `StorageCache.Cache.Load` | src/deft/storage.py:90-97 | a cached object is returned as is; otherwise the file is read once through the format and the result cached; an open error caches nothing |
| `StorageCache.Cache.Save` | src/deft/storage.py:99-102 | the object is cached, its removal mark cleared and the path marked dirty |
| `StorageCache.Cache.Remove` | src/deft/storage.py:107-109 | the path leaves the cache and is marked removed; an uncached path gives KeyError |
| `StorageCache.Cache.Notify` | src/deft/storage.py:111-112 | the observer's callback acts as `mark_dirty` of its path |
| `StorageCache.Cache.MarkDirty` | src/deft/storage.py:114-118 | ValueError for a removed path; otherwise the path becomes dirty |
| `StorageCache.Cache.FlushUpdate` | src/deft/storage.py:140-143 | the cached object is written through its format; an uncached path gives KeyError |
| `StorageCache.WriteEntry` | src/deft/storage.py:140-143 | an uncached path gives KeyError; a read-only storage fails; a failure writes nothing; success stores the format's text of the cached object under the path and keeps every stored path |
| `StorageCache.WriteEntries` | src/deft/storage.py:121-122 | a successful loop had every path cached; no stored path is lost; a read-only storage writes nothing and fails on the first path |
| `StorageCache.WriteEntriesSnoc` | src/deft/storage.py:121-122 | after a successful run over some paths, one more path is one more `_flush_update` |
| `StorageCache.RemoveEach` | src/deft/storage.py:125-126 | the loop fails exactly when the storage is read-only and there is a path, with the first path's error and the files unchanged |
| `StorageCache.Cache.WriteAll` | src/deft/storage.py:121-122 | the loop writes each path once, stopping at the first error |
| `StorageCache.Cache.RemoveAll` | src/deft/storage.py:125-126 | the loop removes each path once, stopping at the first error |
| `StorageCache.Cache.FlushAsWritten` | src/deft/storage.py:120-127 | as written: every dirty path is written, then every removed path is removed, and both sets end up empty |
| `StorageCache.Cache.Flush` | src/deft/storage.py:120-127 | corrected: dirty paths that are not removed are written, then removed paths are removed; both sets end up empty, and removal wins over update |
| `StorageCache.Cache.FlushFile` | src/deft/storage.py:129-135 | a removed path is removed from storage and only its removal mark clears; otherwise a dirty path is written and only its dirty mark clears; otherwise nothing happens |
| `StorageCache.RemoveEachDeletes` | src/deft/storage.py:125-126 | after removing each path, none of them is left, and no new path appears |
| `StorageCache.WriteEntriesNeedCache` | src/deft/storage.py:141 | writing a path that is not cached fails |
| `StorageCache.SaveRemoveFlush` | src/deft/storage.py:107-109 | after save(p) and remove(p) the flush as written fails, while the corrected flush skips p's update and leaves p removed |
| `Properties.RemoveFirst` | src/deft/properties.py:16 | `list.remove` drops the first occurrence of the value and nothing else |
| `Properties.Appended` | src/deft/properties.py:4-10 | append adds the name if absent; other keys are untouched; a value that is not a list goes at the end of the name's values |
| `Properties.Removed` | src/deft/properties.py:13-20 | an absent name changes nothing; a scalar is deleted whatever the value; from a list the first occurrence goes, a single remaining element collapses to a scalar, and a missing value gives ValueError; other keys are untouched |
| `Properties.PropertyDict.constructor` | src/deft/properties.py:3 | an empty property dictionary |
| `Properties.PropertyDict.Append` | src/deft/properties.py:4-10 | the entries become `Appended` of the old ones |
| `Properties.PropertyDict.Remove` | src/deft/properties.py:13-20 | the entries become `Removed` of the old ones, or ValueError with the entries unchanged |
| `Properties.RemoveFirstOfSnoc` | src/deft/properties.py:16 | removing a value that was just appended to a list without it gives the list back |
| `Properties.RemoveUndoesAppend` | src/deft/properties.py:4-20 | `remove(n, v)` after `append(n, v)` restores the properties, except where a two-element list would collapse |
| `Properties.RemoveUndoesAppendToList` | src/deft/properties.py:7-8 | the same for a list property |
| `Properties.RemoveUndoesAppendToScalar` | src/deft/properties.py:9-10 | the same for a scalar property, which becomes a two-element list and collapses back |
| `Upgrade.RecordText` | src/deft/upgrade.py:27-31 | a 1.0 record can be rewritten iff it loads and has both priority and status |
| `Upgrade.FormatRecord` | src/deft/upgrade.py:29-31 | for a string status and an int priority, the tracker's `_format_status`; in general a field of max(8, width) characters, a space, and the status's text at the end |
| `Upgrade.RewrittenRecordReadsBack` | src/deft/upgrade.py:28-31 | a rewritten record reads back, through the 2.0 parser, the priority and status of the 1.0 record |
| `Upgrade.UpgradedConfig` | src/deft/upgrade.py:18 | the saved config has format '2.0' and every other key unchanged |
| `Upgrade.UpgradeWith` | src/deft/upgrade.py:9-19 | format '2.0' gives UserError "already at version 2.0" with nothing written; a format other than '1.0' gives UserError "cannot upgrade from"; success needs format '1.0' and a datadir |
| `Upgrade.UpgradeEffect` | src/deft/upgrade.py:7-19 | a config that does not load fails with its error and writes nothing |
| `Upgrade.LoadRecord` | src/deft/upgrade.py:27-29 | reads a 1.0 record and gives its rewritten text, or the error |
| `Upgrade.RewriteFile` | src/deft/upgrade.py:27-31 | one record file is rewritten in place, or the error leaves the files unchanged |
| `Upgrade.RewriteRecords` | src/deft/upgrade.py:26-31 | the loop rewrites each listed file in turn and stops at the first error |
| `Upgrade.RewriteAll` | src/deft/upgrade.py:26-31 | the loop keeps every stored path; on a read-only storage it writes nothing and fails whenever there is a file to rewrite |
| `Upgrade.FromVersion1` | src/deft/upgrade.py:23-31 | success needs a datadir; every stored path is kept; a read-only storage is left unchanged, and fails when some record file is listed |
| `Upgrade.UpgradeFrom1_0` | src/deft/upgrade.py:23-31 | every `datadir/*.status` file is rewritten, in listing order |
| `Upgrade.Upgrade` | src/deft/upgrade.py:7-20 | the version dispatch, the record rewrite, then the config saved at format '2.0' |
| `Upgrade.RewriteAllStops` | src/deft/upgrade.py:26-31 | a failing prefix of the loop decides the whole run |
| `Upgrade.RewriteAllLast` | src/deft/upgrade.py:26-31 | a successful run is the run over all but the last file, then the last file's rewrite |
| `Upgrade.RewriteAllKeeps` | src/deft/upgrade.py:26-31 | a successful run touches only the listed files and their parent directories |
| `Upgrade.RewriteAllWrites` | src/deft/upgrade.py:26-31 | after a successful run each listed file holds its record rewritten from the original text |
| `Upgrade.FromVersion1Effect` | src/deft/upgrade.py:23-31 | each `datadir/*.status` file holds its rewritten record; files that do not match the pattern are untouched |
| `Upgrade.UpgradeSavesConfig` | src/deft/upgrade.py:18-19 | after a successful upgrade the config file holds the upgraded config, written after the records |
| `Upgrade.UpgradeOutcome` | src/deft/upgrade.py:7-19 | a successful upgrade saves the format-2.0 config, rewrites every record file, and leaves other files unchanged |
| `Upgrade.ConfigSaveKeeps` | src/deft/upgrade.py:18-19 | saving the config after the records keeps each rewritten record and each untouched file, unless the config's directories or file take its place |
| `Formats.SaveLines` | src/deft/formats.py:35-38 | the loop writes each element followed by "\n" |
| `Formats.LinesRoundTrip` | src/deft/formats.py:32-38 | `load(save(xs)) == xs` for elements without line breaks |
| `Formats.LinesWithoutFinalNewline` | src/deft/formats.py:32-33 | a missing final newline still yields the last line |
| `Formats.Aligned` | src/deft/formats.py:47-48 | a cell is padded to the width, on the left when right-aligned and on the right otherwise; a wider cell is kept whole |
| `Formats.Lengths` | src/deft/formats.py:55 | the string width of every cell of a row |
| `Formats.MaxElts` | src/deft/formats.py:45 | Python 2's `map(max, a, b)`: element-wise maximum, with the longer list's tail kept |
| `Formats.Zeros` | src/deft/formats.py:53 | one zero per column of the first row |
| `Formats.ColumnWidths` | src/deft/formats.py:55 | the fold gives at least one width per zero, none below its zero, and a width for every cell of every row |
| `Formats.LongestRowBound` | src/deft/formats.py:55 | over any prefix of the rows, the widths are as many as the zeros or the longest row, whichever is more, and a row attains the count when it exceeds the zeros |
| `Formats.FormatRow` | src/deft/formats.py:57-58 | an empty row gives ""; a row whose cells fit their columns gives a line as long as the column widths together plus one separating space between each two cells |
| `Formats.TableLines` | src/deft/formats.py:41-58 | no lines for an empty table; a table that formats gives one line per row |
| `Formats.WriteTableAsText` | src/deft/formats.py:41-62 | nothing written for an empty table; otherwise each line followed by a line separator |
| `Formats.AllCellsFit` | src/deft/formats.py:55 | every cell fits its column's width |
| `Formats.ColumnWidthsAttained` | src/deft/formats.py:55 | every non-zero column width is the width of some cell in that column |
| `Formats.RectangularTableFormats` | src/deft/formats.py:52-57 | a rectangular table has one width per column and formats without error |
| `Formats.RectangularTableCellAligned` | src/deft/formats.py:47-57 | each cell is padded to its column's width, on the left if the first row's value there is an int, on the right otherwise, the last column included |
| `Formats.RectangularTableLinesAlign` | src/deft/formats.py:57-58 | all lines of a rectangular table have the same length |
| `Warn.Entries` | src/deft/warn.py:26 | one entry per argument: the i-th is `name: repr(value)` for the i-th key in sorted order, so each is at least as long as its ": " |
| `Warn.FormatDict` | src/deft/warn.py:25-26 | the entries joined with ", ": the text is empty exactly when there are no arguments, and otherwise begins with the entry of the smallest key |
| `Warn.FallbackFormat` | src/deft/warn.py:29-30 | the name with every '_' replaced by ' ', then " (" + entries + ")" exactly when there are arguments |
| `Warn.FallbackWithoutArguments` | src/deft/warn.py:29-30 | "example_warning_name" with no arguments formats as "example warning name" |
| `Warn.TwoArguments` | src/deft/warn.py:25-30 | two arguments are listed sorted by key, joined by ", " |
| `PyValues.ReprOfPlainString` | src/deft/warn.py:26 | `repr` of a plain printable string is the string in single quotes |
| `PyValues.ReprStr` | src/deft/warn.py:26 | `repr` of a string is quoted at both ends with the same quote, single or double |
| `Text.ReplaceChar` | src/deft/warn.py:30 | `str.replace` of one character: same length, each occurrence replaced |
| `Warn.PrintWarnings.constructor` | src/deft/warn.py:4-7 | the output, prefix and templates given |
| `Warn.PrintWarnings.MessageFor` | src/deft/warn.py:17-21 | a warning without a template gets the fallback message |
| `Warn.PrintWarnings.Warn` | src/deft/warn.py:9-15 | the output gains prefix + message + "\n" |
| `Warn.IgnoreWarnings.Warn` | src/deft/warn.py:33-39 | any warning is accepted with no effect |
| `Warn.WarningRecorder.constructor` | src/deft/warn.py:44-45 | no warnings recorded |
| `Warn.WarningRecorder.Length` | src/deft/warn.py:47-48 | `len` is the number of recorded warnings |
| `Warn.WarningRecorder.Get` | src/deft/warn.py:50-51 | `recorder[i]` is the i-th warning, negative i from the end, IndexError otherwise |
| `Warn.WarningRecorder.Warn` | src/deft/warn.py:56-59 | the (name, args) pair is appended |
| `Warn.RecordAll` | src/deft/warn.py:43-59 | recording warnings in turn keeps them in call order, one entry per warning |
| `Warn.WarningRaiser.constructor` | src/deft/warn.py:64-65 | by default the raiser raises UserWarning |
| `Warn.WarningRaiser.WithException` | src/deft/warn.py:64-65 | the raiser raises the given exception type |
| `Warn.WarningRaiser.Warn` | src/deft/warn.py:67-70 | every warning raises the configured exception carrying the fallback message |
| `Deft.HeaderLayout` | src/deft.py:6-9 | the header is 'V1.0 W7\n', eight characters, as wide as a line |
| `Deft.Ordering.constructor` | src/deft.py:11-19 | the buffer holds the given content |
| `Deft.Open` | src/deft.py:11-19 | a new file holds only the header; an existing file is mapped as it is; an empty file cannot be mapped |
| `Deft.Ordering.IsEmpty` | src/deft.py:21-22 | true iff the buffer is as long as the header, that is iff nothing was added |
| `Deft.Ordering.Add` | src/deft.py:24-30 | the buffer gains the id's line at its end; earlier bytes are unchanged |
| `Deft.Ordering.Get` | src/deft.py:32-36 | `self[n]` is the n-th id added, when every added id fits its line |
| `Deft.Slice` | src/deft.py:35 | Python slicing: an in-range slice is the subsequence |
| `Deft.ResizeThenWrite` | src/deft.py:26-29 | resizing with zero bytes and writing the line at the old end appends the line |
| `Deft.LinesSnoc` | src/deft.py:24-30 | adding an id appends its line to the contents |
| `Deft.LineShape` | src/deft.py:25 | a line is left padding, the decimal id and "\n" |
| `Deft.LineParses` | src/deft.py:36 | `int(line.strip())` of an id's line is the id |
| `Deft.ItemAt` | src/deft.py:32-36 | `self[n]` succeeds exactly when `int()` accepts the stripped n-th line slice |
| `Deft.LineWidth` | src/deft.py:25 | a line is eight characters exactly when the id fits, and never shorter |
| `Deft.LinesLength` | src/deft.py:24-30 | lines are at least eight characters per id, exactly eight when all ids fit |
| `Deft.LineAt` | src/deft.py:33-35 | the n-th eight-character slice of the lines is the n-th id's line |
| `Deft.EarlierLineKept` | src/deft.py:26-29 | adding an id leaves every earlier line where it was |
| `Deft.ItemOfContents` | src/deft.py:32-36 | reading item n of the contents gives the n-th id added |
| `Deft.ItemWhenValid` | src/deft.py:32-36 | the same for any buffer equal to the contents |
| `Deft.AddAll` | src/deft.py:24-30 | adding ids in turn to a new ordering gives the header followed by their lines; it is empty iff no id was added |
| `Deft.SevenDigitIdMisread` | src/deft.py:25 | as written, a 7-digit id gets a nine-character line and the next id reads back without its last digit |
| `Deft.IntendedReadsSevenDigits` | src/deft.py:32-36 | with the intended layout every id from 0 to 9999999 reads back |
| `Cli.FindEditorCommand` | src/deft/cli.py:16-22 | the value of the first of DEFT_EDITOR, VISUAL and EDITOR present, or UserError when none is set |
| `Cli.PropertyValues` | src/deft/cli.py:392-397 | one value per requested name, "" for a missing one, an empty list for no names |
| `Cli.FeaturesToTable` | src/deft/cli.py:399-400 | one row per feature, in input order, with three cells plus one per property name |
| `Cli.FeatureRow` | src/deft/cli.py:399-400 | a feature's row is its status, its priority and its name, then one cell per property name |
| `Cli.FeatureRowsReadBack` | src/deft/cli.py:399-400 | each row is (status, priority, name, property values...) of its feature |
| `Cli.WriteFeaturesAsText` | src/deft/cli.py:403-424 | the same output as `write_table_as_text` |
| `Cli.FeatureTableLayout` | src/deft/cli.py:403-424 | a feature table formats into lines of equal length, with the priority column right-aligned |
| `Cli.PriorityColumnAligned` | src/deft/cli.py:403-424 | the priority cell of every row is right-aligned to the column's width: spaces, then the decimal priority |

## Left out

- The real file system (`FileStorage`, `os`, `mmap`, file handles), git and history
  snapshots, the web UI, argparse and the command dispatch, CSV output and subprocesses are
  not part of this model.
- YAML is a `Codec` parameter of the upgrader: functions that load the config and the 1.0
  records and dump the config. The `print` at the end of `upgrade` is left out.
- `os.linesep` is "\n".
- `PrintWarnings` templates (`str.format`) are functions from arguments to text; only the
  fallback path is specified.
- `Feature.priority` and `Feature.status` setters call back into the tracker. The model
  writes `priority` as `_record_priority` does and leaves the re-entrant setter out. The
  bucket reports the features whose priority it wrote, and the tracker marks them dirty.
- `features_to_table` reads `feature.properties`, which the `Feature` of tracker.py does not
  have; the model passes a `FeatureView` with a properties map.
- `write_features_as_text` is line for line the code of `write_table_as_text`, and is
  specified by it.
- `Deft.Open`: the empty-file error message stands for the one `mmap` raises.
  `close` is left out.
- `Deft.Ordering.Get` is stated for orderings this model built (`Valid`); a file mapped as it
  was found is read by `ItemAt` without a promise about its ids.
- The order in which Python iterates a `set` or `dict` is not modelled. The tracker's save,
  the cache's flush and the overlay's delta loop take some order, returned as a ghost
  sequence.
- `Tracker.FeatureTracker.Purge`: the read counts the load leaves in the memory storage are
  not stated.
- `Memory.SaveText`, `Memory.LoadText`: `StorageFormats` is a base of `FileStorage` only, and
  the source's `MemStorage` has no `save_text` or `load_text`. The model runs those two
  methods over the memory storage's `open`, since the file storage is not part of this model.
- `LegacyMemStorage.MemStorageIO.Close`, `Memory.MemStorage.Close`,
  `Overlay.OverlayStorage.Close`: a closed `StringIO` raises ValueError on further reads and
  writes; the model has no closed state and leaves the stream usable.
- `PyValues.PyValue`: values are strings, `int`s and lists only. Python 2 `long` (whose
  `repr` appends "L", and which `align_for` aligns left), `bool`, `None`, `float` and `dict`
  are not represented, though they can reach the core through YAML properties, the `repr`
  of src/deft/warn.py:26 and the table cells of src/deft/formats.py:52-53. Since
  `type(True) == int` is false there, a `bool` cell aligns left.
- `LinesFormat(sequence_type)`: the loaded lines are always a list; other sequence types are
  not modelled.
- `Tracker.FeatureTracker.LoadFeatures`, `Tracker.NewTracker`: the loaded features are not
  stated to be fresh objects distinct from each other.
- Aliasing between a tracker's features and objects held elsewhere is not modelled beyond
  the frames of each method.
- `fnmatch` is restricted to literal characters and `*`. The memory storage matches `*`
  within one segment; the overlay matches whole paths, where `*` also matches "/".
- `Overlay.RemovedDeltas`, `Overlay.OverlayStorage.Remove`: these take the evident effect,
  every delta below p removed and no error. As written, deleting inside the loop over the
  dict raises RuntimeError "dictionary changed size during iteration" after the first
  deletion, and every other delta below p stays (see Findings and `Overlay.RemoveAsWritten`).
  Python 2's dict order is not modelled; `Overlay.RemoveAsWritten` takes it as a parameter.
- `Overlay.RenameOver`, `Overlay.OverlayStorage.Rename`: these use the evident remove. As
  written, rename ends with remove(from), so it raises that RuntimeError after moving the
  delta whenever some delta lies below the source path.
- `DirectoryAddition.open` refers to an undefined `relpath`; the model gives IOError
  "<path> is a directory", the evident intent.
- `Tracker.StatusRoundTrip`: holds for priorities from -9999999 to 99999999, the ones that
  fit eight characters; `Tracker.WidePriorityMisread` shows what a wider one does.
- `Deft.Ordering.Get`: holds only when every added id fits its line; `Deft.SevenDigitIdMisread`
  shows what a 7-digit id does to the code as written.

## Findings

| source | as written | input that shows it | evidently intended | confidence | as-written member | corrected member |
|---|---|---|---|---|---|---|
| src/deft/storage/memory.py:99-100 | `rename` pops the source before `makedirs` checks the read-only flag | files {"notes": "draft"}, read-only, rename("notes", "archive/notes"): IOError, and "notes" is lost | a failing rename leaves the files as they were | high, not executed | `Memory.RenameReadOnlyLosesFile` | `Memory.RenameCorrectionAgrees` |
| src/deft/storage/overlay.py:81-85 | a stream opened for writing stores under the delta's own path, which after a rename is the old path | underlay x = "old"; rename x to y; write "new" to y; y still reads "old" and x reappears holding "new" | the text is stored under the path that was opened | high, not executed | `Overlay.RenamedWriteLandsOnOldPath` | `Overlay.WriteThenRead` |
| src/deft/storage.py:120-123 | `flush` updates every dirty path, including one removed after it was saved, whose cache entry is gone | save(p); remove(p); flush(): KeyError from `_flush_update` | removal takes precedence over update, as in `flush_file` | high, not executed | `StorageCache.SaveRemoveFlush` | `StorageCache.Cache.Flush` |
| src/deft/storage/overlay.py:105-108 | `remove` deletes from `self._deltas` inside `for deltapath in self._deltas` | deltas a/x and a/y, the dict yielding a, a/x, a/y; remove("a"): a/x is deleted, then RuntimeError "dictionary changed size during iteration", and a/y stays, existing again once a is re-created | every delta below p is removed and no error is raised | high, not executed | `Overlay.RemoveAsWrittenExample` | `Overlay.RemovedDeltas` |
| src/deft.py:25 | `"% *d"` reserves a sign column, so a 7-digit id gets a nine-character line | add(1234567); add(7654321); self[1] gives 765432 | every id of up to max_digits digits fits one eight-character line | high, not executed | `Deft.SevenDigitIdMisread` | `Deft.IntendedReadsSevenDigits` |
