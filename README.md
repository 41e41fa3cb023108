# FileUtils `File` — a Dafny model

This project models the core of FileUtils, the `File` class of
`src/file-utils.js`. The class wraps Node's `fs` and `path` modules in a
Java-like file object. The model covers five parts of it:

- **Path values** (`Paths`): what the constructor decides about its
  argument, `getParent`, `getParentFile`, `getAbsolutePath` and `equals`.
- **Owner permissions** (`Permissions`): `checkPermission`, `setPermission`
  and their `can*`/`set*` wrappers. They read and toggle the owner bits 4,
  2 and 1 of a POSIX mode, through the octal string of `mode & 0777`.
- **Recursive tree operations**, run against an abstract file system
  (`Tree`): `list`, `listFiles`, `search`, `contains` (`Listing`,
  `Searching`), `remove`, `removeSynchronous` (`Removal`) and `copy`
  (`Copying`).
  - A directory is the sequence of its entries in `readdir` order.
  - An entry is a file, a directory, something `stat` reports as neither
    (`Special`), or a name whose `stat` fails (`Absent`).
  - Each operation is specified by a function from the tree to the
    sequence of calls its callback receives.
  - For `copy`, `Copying.CopyResult` also gives what is left at the
    destination, so that a refusal, a success and a `remove` that stops
    short can be told apart by their effect.
- **The completion counter** (`FanIn`): every directory level of `list`,
  `remove` and `copy` uses a `done`/`filesLen` counter.
  - It is modelled once, as the method `FanIn.Gather`. The method consumes
    the children's reports in an arbitrary arrival order.
  - Per operation, the methods `Listing.ListLevel`,
    `Removal.RemoveDirectory` and `Copying.CopyDirectory` are proved to
    give the callback calls of the level functions `Listing.Level`,
    `Removal.RemoveLevel` and `Copying.CopyLevel`. This holds for every
    order of arrival.
- **Small state machines** (`Disks`, `Facade`):
  - the `_removeOnExit` flag and the exit listener it keeps registered;
  - `createDirectory`'s `mkdirDeep`;
  - `createNewFile`;
  - the retry loop of `createTempFile`;
  - the exists/replace decision that `rename` shares with `copy`.

Node's `path` module is reduced to a `/`-joined model (`Paths.Join`). Its
arguments are taken as already normalised. The entry module's directory
and the working directory are passed in as parameters.

A callback's calls are a `seq<Reply<T>>`: `Ok(v)` stands for `cb (null, v)`
and `Fail(e)` for `cb (e, …)`. An empty sequence means the callback is never
called. That outcome really occurs in the source, and the model keeps it.

## Model

| member | source | states |
|---|---|---|
| Paths.MakeAddress | src/file-utils.js:19-52 | A falsy argument, `""` or `./` gives a null path. `_isAbsolute` holds iff the path starts with the separator or contains `:`. `../` becomes `..`. `_relativePath` is the path when absolute, else the entry directory joined with it. |
| Paths.LastIndexOf | src/file-utils.js:357 | The index of the last occurrence of the character, or -1 exactly when it is absent. |
| Paths.ParentPath | src/file-utils.js:356-363 | No parent when there is no separator, or when the path is the root itself. `/` when the only separator is the first character. Otherwise the prefix before the last separator. |
| Paths.GetParent | src/file-utils.js:355-364 | `null` exactly for a null path, a path without separator, or the root. Otherwise the result is strictly shorter than the path. |
| Paths.GetParentFile | src/file-utils.js:366-370 | `null` exactly when `getParent` is `null`. Otherwise a `File` on a strictly shorter path. |
| Paths.AbsolutePath | src/file-utils.js:344-348 | `null` exactly for a null path. An absolute path is returned unchanged. The result is never empty. |
| Paths.Equals | src/file-utils.js:324-329 | Two null paths are equal. A null path never equals a non-null one. Two absolute paths are equal iff they are the same string. |
| Paths.ParentComponents | src/file-utils.js:355-364 | The parent path names a prefix of the same components, one name shorter unless the path ends with a separator. |
| Permissions.OctalDigits | src/file-utils.js:59 | `toString (8)` yields at least one digit, one exactly below 8, and never a leading zero after that. |
| Permissions.OctalRoundTrip | src/file-utils.js:59 | Reading the octal string back gives the number. |
| Permissions.ThreeOctalDigits | src/file-utils.js:59 | A nine-bit mode with a non-zero owner digit prints as owner, group, other. |
| Permissions.LeadingDigit | src/file-utils.js:59 | The first character of the octal string is the owner digit whenever the owner digit is non-zero. |
| Permissions.SetPermissionAsWritten | src/file-utils.js:64-82 | No chmod iff the leading digit already has the bit as requested. Otherwise the new string has the same length and the same tail. Its first digit has the bit as requested and the other two bits unchanged. |
| Permissions.ToggleDigit | src/file-utils.js:71-74 | `u + mask` when setting and `u - mask` when clearing stays in 0..7. It toggles that bit only. |
| Permissions.SetPermission | src/file-utils.js:64-82 | No chmod iff the owner bit already has the requested value. Otherwise the new mode has that owner bit as requested, the other owner bits unchanged, and the group and other bits unchanged. |
| Permissions.AsWrittenAgreesWithOwnerDigit | src/file-utils.js:54-82 | With a non-zero owner digit, the code as written gives the intended answer and a chmod string that reads as the intended mode. |
| Permissions.OwnerlessModeMisread | src/file-utils.js:59 | On modes 0o044 and 0 the code as written reads or changes the wrong digit. |
| Permissions.CheckPermissionAsWritten | src/file-utils.js:54-62 | With a non-zero owner digit, the test of the leading octal digit gives the owner's answer. |
| Permissions.CheckPermission | src/file-utils.js:54-62 | The answer is bit 8, 7 or 6 of the mode for the read, write or execute mask. |
| Permissions.CanRead | src/file-utils.js:90-94 | `false` for a null path. A stat error is passed on. Otherwise `true` iff the owner may read, by the corrected owner bit (see Findings). |
| Permissions.CanWrite | src/file-utils.js:96-100 | `false` for a null path. A stat error is passed on. Otherwise `true` iff the owner may write, by the corrected owner bit (see Findings). |
| Permissions.CanExecute | src/file-utils.js:84-88 | `false` for a null path. A stat error is passed on. Otherwise `true` iff the owner may execute, by the corrected owner bit (see Findings). |
| Permissions.SetAccess | src/file-utils.js:673-699 | chmod is asked for only when the owner bit differs from the request. The requested mode changes only that bit. `true` iff chmod was asked for and succeeded. `(null, false)` when nothing needs changing. The owner bit is the corrected one (see Findings). |
| Tree.PlainNoDangling | src/file-utils.js:574-622 | A tree of files and directories has nothing whose `stat` fails. |
| FanIn.Gather | src/file-utils.js:454-488 | Each child error is passed on once, in arrival order. The completion fires exactly once when `done` reaches `filesLen`, or for zero entries when checked first; otherwise it never fires. It carries the holder filled by the first `filesLen` successes. |
| FanIn.Tally | src/file-utils.js:465-486 | One report keeps the counter's state: an error is passed on, a success is written into the holder and bumps `done`, and the completion fires when `done` reaches `filesLen`. |
| FanIn.PermutedFailures | src/file-utils.js:465-488 | Any arrival order gives the same multiset of errors. |
| FanIn.PermutedDones | src/file-utils.js:465-488 | Any arrival order gives the same number of successes, and the same successes. |
| FanIn.CollectContents | src/file-utils.js:470-474 | The holder has a key for exactly the names that reported, each bound to one of its values. |
| FanIn.CollectPermuted | src/file-utils.js:470-474 | Successes with one value per name fill the same holder in any order. |
| FanIn.SettleParts | src/file-utils.js:456-462 | The callback receives every passed-on error in order, and one success per completion carrying its holder. |
| FanIn.RelayParts | src/file-utils.js:480-484 | A parent counts every success of a child under the child's name, and passes every error on. |
| Listing.SurvivorsMembers | src/file-utils.js:437-446 | `applyFilter` keeps exactly the entries the filter accepts. |
| Listing.ApplyFilter | src/file-utils.js:437-446 | The loop keeps the accepted entries in order. |
| Listing.List | src/file-utils.js:419-497 | A null path never calls back. A failed `stat` passes its error on. A file gives "not a directory". Something neither file nor directory never calls back. |
| Listing.LevelSignalsFacts | src/file-utils.js:448-488 | A level reports at most one success per surviving entry. It reports all of them iff every surviving entry below lists cleanly, and then they are the expected pairs. It reports no error iff no `stat` below fails. |
| Listing.Level | src/file-utils.js:448-488 | A directory level completes at most once. An empty directory completes at once with `{}`. |
| Listing.LevelFacts | src/file-utils.js:448-488 | A directory completes once with the expected holder iff everything below lists cleanly, and never otherwise. Its errors are those of its entries. |
| Listing.EmptyLevel | src/file-utils.js:454-464 | A directory with no surviving entries completes at once with `{}`. |
| Listing.RejectedIgnored | src/file-utils.js:441-452 | An entry the filter rejects is never probed: replacing what is there changes nothing. |
| Listing.ExpectedContents | src/file-utils.js:465-486 | The holder has exactly the accepted names as keys. A file maps to its joined path, a directory to its own holder. |
| Listing.ListLevel | src/file-utils.js:448-488 | For any arrival order of the children's reports: `cb (null, holder)` once with the expected holder iff the level is clean, and each child error once. |
| Listing.ConvertedRoundTrip | src/file-utils.js:509-518 | `listFiles`' replacement of paths by `File` objects loses nothing: the paths come back. |
| Listing.Replace | src/file-utils.js:509-518 | The in-place walk turns every path at every depth into a `File` and keeps the keys. |
| Listing.ListFiles | src/file-utils.js:499-527 | One call per call of `list`. Errors are passed on unchanged, and each holder is converted. |
| Searching.KeepAllVisitsAll | src/file-utils.js:662-667 | With a filter that keeps everything, `list` visits every entry at every depth, matched directories included. |
| Searching.Search | src/file-utils.js:655-671 | A null path gives `false`. Otherwise one call per call of `list`: its errors passed on, its completions answered with the recorded paths. |
| Searching.SearchFindsAll | src/file-utils.js:655-671 | On a tree of files and directories, `search` answers once with the paths of all entries named as sought, at any depth. |
| Searching.ContainsAsWritten | src/file-utils.js:132-137 | `true` on a null path. On any other path, the same answers as the corrected `contains`. |
| Searching.Contains | src/file-utils.js:132-137 | `false` on a null path. Otherwise one answer per callback call of `list`, with an error exactly where `list` gives one. |
| Searching.NullPathContains | src/file-utils.js:132-137 | On a null path, `contains` as written answers `true`; the corrected one answers `false`. |
| Searching.ContainsFinds | src/file-utils.js:132-137 | On a tree of files and directories, `contains` answers whether some entry at any depth has the name sought. |
| Removal.Remove | src/file-utils.js:567-624 | A null path gives `false`. A failed `stat` passes its error on. A file is unlinked and answers `true`. Something neither file nor directory never calls back. |
| Removal.RemoveLevel | src/file-utils.js:588-620 | A directory's `remove` succeeds at most once, and only with `true`. An empty directory answers `true` at once. |
| Removal.RemoveErrorCount | src/file-utils.js:567-624 | `remove` passes on one error per entry, at any depth, whose `stat` fails. |
| Removal.RemoveLevelFacts | src/file-utils.js:588-620 | `rmdir` is issued, and `true` answered, once, exactly when everything below is files and directories. A zero-entry directory is included. The errors are those of the entries. |
| Removal.RemoveOutcome | src/file-utils.js:567-624 | `remove` succeeds once iff the tree holds only files and directories. It reports an error iff some `stat` below fails. |
| Removal.RemoveDirectory | src/file-utils.js:594-620 | For any arrival order of the children's reports: `true` once iff the level is plain, and each child error once. |
| Removal.Residue | src/file-utils.js:567-624 | What `remove` leaves is never a file. A file leaves nothing. Something is left where nothing could be found, and a directory is left only where a directory was. |
| Removal.ResidueFacts | src/file-utils.js:567-624 | `remove` leaves nothing iff the tree is files and directories. What it leaves is never such a tree. |
| Removal.RemovalConserves | src/file-utils.js:567-624 | Every file and directory is either deleted or still there afterwards. |
| Removal.PlainRemovedEntirely | src/file-utils.js:567-624 | On a tree of files and directories, every node is deleted. |
| Removal.RemoveTwice | src/file-utils.js:567-624 | After a successful `remove`, a second one fails its `stat`. |
| Removal.ResidueStable | src/file-utils.js:567-624 | Removing what `remove` left removes nothing more. |
| Removal.SyncSpec | src/file-utils.js:626-642 | The walk returns `false` iff nothing is at the path. When nothing is left it returned `true`. What is left is a directory iff a directory was there. |
| Removal.RemoveTree | src/file-utils.js:626-642 | The depth-first walk returns, throws and leaves what `Removal.SyncSpec` gives. |
| Removal.RemoveEntries | src/file-utils.js:635-637 | The loop over the entries stops at the first exception, and leaves every entry not removed. |
| Removal.RemoveSynchronous | src/file-utils.js:626-642 | `false` for a null path, with nothing touched. Otherwise the walk. |
| Removal.SyncPlain | src/file-utils.js:626-642 | A tree of files and directories is removed entirely, and the walk returns `true`. |
| Removal.SyncDirectory | src/file-utils.js:633-639 | On a directory, the walk returns iff nothing is left. It returns `true` iff the tree is files and directories; otherwise `rmdirSync` or a child throws. |
| Removal.SyncAgreesWithRemove | src/file-utils.js:567-642 | On a directory, `removeSynchronous` returns `true` exactly when `remove` answers `true`. |
| Copying.Copy | src/file-utils.js:139-229 | A null source gives `false`. A failed `stat` passes its error on. An existing destination without `replace` gives `false`. Without the destination's parent, a file or a directory gets the error of the write stream or `mkdir`. A file over a directory gets the write stream's error. |
| Copying.CopyLevel | src/file-utils.js:172-200 | A directory's copy never answers `false` and answers `true` at most once. An empty directory never answers. |
| Copying.CopyNode | src/file-utils.js:202-228 | A copy into a free place whose parent exists never answers `false`, and answers `true` at most once. |
| Copying.ThenCopy | src/file-utils.js:213-220 | Every success passed on after `remove` is one of the directory copy's. |
| Copying.Replica | src/file-utils.js:160-200 | A copy into a free place creates nothing exactly when the source is neither a file nor a directory. |
| Copying.PlainCopied | src/file-utils.js:160-200 | A tree of files and directories is copied as it is. |
| Copying.CopyRefusalWritesNothing | src/file-utils.js:202-209 | A copy that answers `false` leaves the destination as it was. |
| Copying.CopyNeverRefusesWhenFree | src/file-utils.js:202-228 | Past the exists/replace decision, `copy` never answers `false`. |
| Copying.CopySuccessReproduces | src/file-utils.js:139-229 | A copy that answers `true` had files and non-empty directories as its source, and the destination then holds the source tree. |
| Copying.CopyNoParent | src/file-utils.js:160-176 | Without the destination's parent, a file or a directory gets a missing-parent error and nothing is created. |
| Copying.CopyErrorCount | src/file-utils.js:172-200 | A copy into a free place passes on one error per entry, at any depth, whose `stat` fails. |
| Copying.CopyLevelFacts | src/file-utils.js:172-200 | A directory's copy answers `true` once iff it is non-empty and everything below copies. Its errors are those of its entries. |
| Copying.CopyNodeFacts | src/file-utils.js:139-229 | A copy into a free place answers `true` once iff the source is files and non-empty directories. It reports an error iff some `stat` below fails. |
| Copying.SilentCopy | src/file-utils.js:186-196 | A copy with nothing dangling that cannot succeed never calls back. |
| Copying.EmptyDirectorySilent | src/file-utils.js:172-196 | Copying an empty directory never calls back, because `done` never reaches `filesLen`, although the empty directory is created. |
| Copying.CopyFresh | src/file-utils.js:202-228 | With nothing at the destination and its parent in place, `copy` is the copy into a free place, and the destination then holds the copied tree. |
| Copying.CopyReplace | src/file-utils.js:212-222 | A directory over an existing destination with `replace`: `remove` runs first. When it clears the place, the answers and the result are those of the copy into the freed place. Otherwise only the errors of `remove` are passed on, and the destination holds what `remove` left. |
| Copying.CopyDirectory | src/file-utils.js:178-196 | For any arrival order of the children's reports: `true` once iff the level is copyable, and each child error once. |
| Disks.Deep | src/file-utils.js:237-263 | `mkdirDeep` never removes a directory. When it answers `true`, the path was missing and now exists. Otherwise nothing changes. |
| Disks.DeepAsWritten | src/file-utils.js:237-241 | As written, `mkdirDeep` answers `false` on an existing path and never answers on a missing one. |
| Disks.MkdirDeepNeverAnswers | src/file-utils.js:237-263 | Every path the intended `mkdirDeep` creates is one on which the code as written never calls back. |
| Disks.DeepCreates | src/file-utils.js:237-263 | `mkdirDeep` answers `true` iff the path was missing and reachable from an existing directory through missing ones. It then exists. Otherwise nothing changes. |
| Disks.DeepCreatesPrefixes | src/file-utils.js:237-263 | Everything `mkdirDeep` creates is the path or a prefix of it. |
| Disks.DeepTwice | src/file-utils.js:237-263 | After `mkdirDeep` has created a path, a second call answers `false` and changes nothing. |
| Disks.Disk.MkdirDeep | src/file-utils.js:237-263 | The recursion creates and answers as `Disks.Deep` gives, keeps the disk consistent, and touches no file. |
| Disks.Disk.Mkdir | src/file-utils.js:241 | `mkdir` fails on an existing path or a missing parent. Otherwise it adds the directory. |
| Disks.Disk.CreateEmpty | src/file-utils.js:282-286 | The write stream makes an empty file when a directory holds it. Otherwise it reports an error. |
| Facade.Without | src/file-utils.js:651 | `removeListener` takes one registration out. |
| Facade.File.constructor | src/file-utils.js:19-52 | A new `File` has the constructor's properties and `_removeOnExit` false. |
| Facade.File.RemoveOnExit | src/file-utils.js:644-653 | The flag follows the argument. The exit listener is registered once while the flag is set and not at all otherwise. It is added or removed only when the flag changes, and no other listener is touched. |
| Facade.File.CreateDirectory | src/file-utils.js:231-269 | `false` for a null path. Otherwise `mkdirDeep` on the absolute path. |
| Facade.File.CreateNewFile | src/file-utils.js:271-290 | `false` for a null or existing path. Otherwise `true` at once, followed by the stream's error when the file cannot be written. |
| Facade.NewFile | src/file-utils.js:271-290 | One or two callback calls. A null path gives `false` and changes nothing. Otherwise no file is removed and at most the path itself is added. |
| Facade.NewFileAnswers | src/file-utils.js:278-288 | `createNewFile` answers `true` iff the path was free, even when the file cannot be written. The file exists afterwards iff no error follows. |
| Facade.NewFileTwice | src/file-utils.js:271-290 | After `createNewFile` has made the file, a second call answers `false`. |
| Facade.DecimalRoundTrip | src/file-utils.js:308 | The decimal form of the drawn number reads back as the number. |
| Facade.TempPath | src/file-utils.js:297-308 | The candidate path is never empty. |
| Facade.TempPathsDistinct | src/file-utils.js:297-308 | Two different draws name two different files. |
| Facade.FirstFree | src/file-utils.js:307-311 | The retries stop at the first candidate name that is free. Every name before it is taken. It reaches the end only when every name is taken. |
| Facade.CreateTempFile | src/file-utils.js:292-322 | Every name before the chosen one was taken, and the chosen one was free. The new `File` is marked `removeOnExit` with its listener registered, and the empty file is written or its error reported. With the draws exhausted nothing changes. |
| Facade.Rename | src/file-utils.js:529-565 | Exactly one call. `true` iff the path is not null, `replace` is set or nothing is at the new name, and the move succeeds. `false` iff it refuses to move. Otherwise the move's error. |
| Facade.RenameMoves | src/file-utils.js:540-564 | `rename` moves iff the path is not null and either `replace` is set or nothing is at the new name. |
| Facade.CopyRefusesLikeRename | src/file-utils.js:202-228 | On a non-null path whose `stat` succeeds, `copy` answers `false` exactly when `rename` would refuse to move. |

## Left out

- `checksum` (src/file-utils.js:102-130): a crypto hash fed by stream events. It is not part of this model.
- Byte streaming: `copyFile` streams bytes, and `createNewFile`/`createTempFile` create write streams.
  - Once its write stream opens, a file copy is taken to succeed and answer `true`.
  - The empty file is written when a directory holds it.
  - `copyFile` as written pumps into an undefined `f` (src/file-utils.js:166). Its stream behaviour is not part of this model.
- Failures of individual system calls: `readdir`, `unlink`, `rmdir`, `mkdir` of a free name under an existing directory, `chmod`, and `FS.rename`.
  - Only the failures that come from the tree's shape are modelled: a failed `stat`, something not a directory, a missing parent (for `mkdir`, `mkdirDeep` and the write streams), a write stream opened on a directory, something still at the path of `copy`'s `mkdir`, and `rmdirSync` on a non-empty directory.
  - `chmod` and `rename` outcomes are parameters.
- `Math.random` in `createTempFile` becomes a finite sequence of drawn numbers.
  - Facade.CreateTempFile: when every drawn name is taken, the model stops without a file. The source draws again forever.
- Process exit is not modelled. The process is reduced to its list of `"exit"` listeners.
- Node's `path` module is reduced to a `/`-joined model, and `process.cwd`/`process.mainModule` to parameters.
  - Copying.Copy: each child's destination is taken as the fresh directory's entry, i.e. the destination path is already resolved. The source resolves a relative destination against the file's own base.
- Thin stat wrappers with no logic beyond the null-path guard are not modelled: `exists`, `isFile`, `isDirectory`, `lastModified`, `size`, `getPermissions`, `setPermissions`, `setReadOnly`, `getName`, `getPath`, `toString`, `getAbsoluteFile`. Neither is `isHidden`, which only throws.
- Copying.Copy: a dangling link at the destination is taken as nothing there. `PATH.exists` is false for it, yet `mkdir` would fail and the write stream would follow the link.
- Copying.CopyResult: a file copied with `replace` over something neither a file nor a directory (a FIFO, a socket) is taken to replace it.
- `mkdirDeep` calls `path.mkdir`, which the `File` prototype does not define (see Findings). `Disks.Deep` reads the call as `FS.mkdir` on the path, reporting `(error, created)`.
- `rename` does not update the `File`'s own path: its properties are read-only. The model has no state to update.
- Real asynchrony is not modelled. Sibling completions are an arbitrary-order sequence of reports per directory level, and the levels are composed through the level functions `Level`, `RemoveLevel` and `CopyLevel`.
- The holder `list` fills in place is modelled as the map built by the completions, one level at a time.
- Listing.ListLevel and the other per-level methods require the distinct names `readdir` guarantees.
- `mkdirDeep` and the file creations run on a second, existence-only view of the file system (`Disks.Disk`). It is not linked to the tree of the recursive operations.

## Findings

| source | as written | input that shows it | evidently intended | confidence | as-written member | corrected member |
|---|---|---|---|---|---|---|
| src/file-utils.js:59 | `checkPermission` tests the first character of `(mode & 0777).toString (8)` | mode 0o044: that character is the group digit 4, so `canRead` answers `true` although the owner has no permission | test the owner digit, `(mode & 0777) >> 6` | high (not executed) | Permissions.OwnerlessModeMisread | Permissions.CheckPermission |
| src/file-utils.js:69-79 | `setPermission` builds the new mode from that first character plus the remaining characters | mode 0o044 with `setWritable (true)`: chmod gets "64" (0o064), granting the group write and the owner nothing; mode 0 with `setReadable (true)` gets "4" (other read) | toggle the owner bit and keep group and other | high (not executed) | Permissions.SetPermissionAsWritten | Permissions.SetPermission |
| src/file-utils.js:135 | `contains` tests `files.length !== 0` on what `search` gives | null path: `search` gives `false`, `false.length` is `undefined`, and the answer is `true` | a null path contains nothing: `false` | high (not executed) | Searching.NullPathContains | Searching.Contains |
| src/file-utils.js:241 | `mkdirDeep` calls `path.mkdir`, which `File.prototype` does not define | any missing path, such as `/tmp/x` under an existing `/tmp`: the call throws a `TypeError` inside the `exists` callback, so `createDirectory` never calls back and creates nothing | `FS.mkdir` on the path, reporting `(error, created)` | high (not executed) | Disks.MkdirDeepNeverAnswers | Disks.Deep |
