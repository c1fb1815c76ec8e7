# cmake-abe shell utilities and rmake, modelled in Dafny

This project models three parts of the cmake-abe helper scripts.

- **`ShellCmd` (shlutilib.py).** This is the portable shell-command executor that the CMake scripts call: `rm`, `mkdir`, `rmdir`, `mv`, `cp`, `mklink`, `touch`, `cmpver`, `is-wsl-win-path`, the Windows/WSL path converters, the remote-path computation of `upload`, the NDK directory choice of `ndk_root`, and the command dispatch of `main`.
- **`run_shell_command` (shellutil.py).** This is the older copy of the executor, with its own messages and its own `rm` rules.
- **`RsyncMake` (rmakelib.py).** This is the remote-build driver. It derives the rsync source and destination, the rsync options, the commands and the make variables from its arguments. It then runs the commands in order, keeping the `has_synced_forward` and `need_sync_backward` flags. The model also covers the `get_workspace_dir` ancestor search and the `wsl_main` argument splitter.

## How the model is built

**The filesystem.** It is a map from path to kind: `File`, `Dir`, `Link(target, isDirLink)` or `Other` (module `FileSystem`).

- Every OS call that can raise `OSError` is one abstract operation, such as `os.remove`, `os.rmdir`, `shutil.rmtree`, `os.utime`, `open(..., 'ab')`, `shutil.move`, `shutil.copy2`, `shutil.copytree` or `os.symlink`.
- Each such operation fails when the filesystem forbids it, or when a set of `Fault(call, path)` entries says so.
- `glob.glob` is a function parameter from the filesystem and a pattern to the ordered matches.
- The race-tolerant `os.makedirs` retry is driven by an oracle. For each path and attempt number, it answers with success, `EEXIST` (with whether the path is a directory by then), or another error.

**One command run.** Every run leaves behind a `Run` record (module `Runs`): status, filesystem, stderr lines (as `Message` values, rendered to the code's exact texts), the attempted calls, and whether the command returned early.

**Loops.** Each per-item loop of the source is two things:
- a specification function over that record;
- an imperative method with `while` loops whose postcondition is that function.

What the source promises is proved as invariants of the record:
- `ForcedRun`: with `-f`, nothing is printed, nothing returns early, and the status is 1 exactly when some call raised.
- `StrictRun`: without `-f`, every call but the last succeeded, and the first failure prints one line and returns 1.
- `StopRun`: for `mv`, `cp` and `mklink`, a failure returns 1 even with `-f`, which only silences the message.

**`RsyncMake`.** It is a class that holds the fields of the Python object (module `Rmake`).
- Its methods `SyncForward`, `SyncBackward`, `RunMake`, `RunCommand` and `Run` update the fields in place.
- Each method states the new fields in terms of specification functions of the old ones (modules `RmakeConfig` and `Rmake`).
- The lemmas about those functions carry the properties of a run.
- Git, rsync, make and hook calls are recorded as `Action` values in a `trace` field.

The `-f` help text says "ignore errors, never prompt" (shlutilib.py:640); the model follows the code:

- With `-f`, the per-item loops still end with status 1 when an item failed. Ignoring errors holds only for the messages and for continuing (`ForcedRun`).
- With `-f`, `mv`, `cp` and `mklink` still return 1 on an `OSError`; `mv` and `cp` also stop at once. Force only suppresses the message (`StopRun`).
- The Windows-to-WSL round trip needs a rest without a trailing `/`, because `win2wsl_path` strips trailing slashes.

## Model

| member | source | states |
|---|---|---|
| Runs.Try | shlutilib.py:63-78 | one attempted call inside a per-item loop: the call is recorded; on success only the filesystem changes; on failure the status becomes 1, the loop ends unless forced, and a message is added unless forced |
| Runs.Abort | shlutilib.py:59-62 | an early return: status 1, one message, nothing else changes |
| Runs.TryOnce | shlutilib.py:187-195 | a call whose failure returns 1 at once even with force; force only drops the message |
| Runs.TryForced | shlutilib.py:72-75 | a forced attempt keeps the forced-loop invariant (no message, no early return, status 1 iff some call failed) |
| Runs.TryStrict | shlutilib.py:72-78 | an unforced attempt keeps the strict invariant (all but the last call succeeded, one message exactly when it returned 1) |
| Runs.AbortStrict | shlutilib.py:59-62 | an early return keeps the strict invariant |
| Runs.TryOnceStop | shlutilib.py:187-195 | a stop-at-first-failure attempt keeps its invariant |
| FileSystem.OsRemove | shlutilib.py:65-71 | `os.remove` succeeds exactly on an existing non-directory without a fault, and then deletes only that entry |
| FileSystem.OsRmdir | shlutilib.py:135-147 | `os.rmdir` succeeds exactly on a directory with nothing below it (for the root `/`, no absolute path at all) without a fault, and then deletes only that entry |
| FileSystem.RootNotEmpty | shlutilib.py:160-163 | `os.rmdir("/")` raises while any absolute path exists, so the ancestor walk of `-e` stops at the root |
| FileSystem.OsRmtree | shlutilib.py:92-94 | `shutil.rmtree` succeeds exactly on a directory without a fault, and then deletes exactly the subtree |
| FileSystem.OsUtime | shlutilib.py:360-368 | `os.utime` succeeds exactly on an existing path, following a link, so a dangling link fails; it never changes the map |
| FileSystem.OsCreate | shlutilib.py:350-359 | `open(p, 'ab')` opens through a link at `p`; it fails on a fault, when the resolved path is a directory, or when it is new and its directory is missing; otherwise `p` exists afterwards, and the only change is an empty file at the resolved path when nothing was there |
| FileSystem.Relocate | shlutilib.py:189 | the rename of a tree: every entry of the source tree reappears at its rebased path with its kind, and nothing else changes |
| FileSystem.OsMove | shlutilib.py:187-189 | `shutil.move` renames the whole tree of the source to its destination (inside a directory destination); it raises when that path exists inside the directory, or when a directory would go below itself or onto a non-directory. When the new path's directory is missing, a file or link move raises, while a directory arrives through the copy fallback, which first makes the missing directories; that fallback raises when the chain holds a non-directory or the tree a special file. A rename in place changes nothing |
| FileSystem.MoveFrame | shlutilib.py:187-189 | a move changes no entry outside the trees of its source and its destination |
| FileSystem.MoveCarriesTree | shlutilib.py:187-189 | a successful move that is no rename in place puts every entry of the source tree at its rebased path and leaves nothing of it behind; the only other new entries are directories above the destination, made only when a directory was moved into a missing directory |
| FileSystem.OsCopy2 | shlutilib.py:210-211 | `shutil.copy2` writes through a link at the destination: it needs a regular file source, a written path other than the source's (through links on both sides), not a directory and with an existing directory, and then makes that path a file, keeping the link; otherwise it changes nothing |
| FileSystem.CopyLink | shlutilib.py:203-209 | a link copied without following it is recreated at the destination with the same target; it fails exactly when the existing destination is a directory or cannot be unlinked, or when `os.symlink` raises, and in that last case the unlinked destination stays gone |
| FileSystem.MakeDirs | shlutilib.py:234-237 | the `os.makedirs(..., exist_ok=True)` that `copytree` starts with, when every existing entry of the destination's dirname chain is a directory, leaves the whole chain directories, makes only missing ones and changes no existing entry |
| FileSystem.CopiedEntries | shlutilib.py:234-237 | each copyable entry below the source is copied to its rebased path below the destination root, with the kind `copytree` and `copy_file` give it |
| FileSystem.CopiedEntriesUntargeted | shlutilib.py:234-237 | a copied link keeps its source link's target, so no copy names a path that no link named |
| FileSystem.CopyTreeFs | shlutilib.py:234-237 | when `makedirs` on the destination root does not raise, every entry of its chain afterwards is an existing directory left as it was or a new directory, every copyable entry is copied, and nothing outside the destination tree changes |
| FileSystem.OsCopyTree | shlutilib.py:234-237 | `copytree` raises without change when the source is no directory, some existing entry of the destination's chain is not a directory, or the destination is in the source's tree other than as a new child of the source with nothing at or below it (`cp -r d d`, which copies the tree as it was listed before the child was made); otherwise it copies the tree and raises exactly when some entry below the source is a special file or a dangling link it would follow |
| FileSystem.OsSymlink | shlutilib.py:255-256 | `os.symlink` adds exactly the link when the path is free, its directory exists and no fault applies |
| RemoveTouch.Rm | shlutilib.py:54-105 | the loops of `run__rm` compute exactly `RmOutcome`: status, filesystem and stderr |
| RemoveTouch.RmForced | shlutilib.py:54-105 | with `-f`, rm prints nothing, never stops early, and returns 1 exactly when some removal raised |
| RemoveTouch.RmStrict | shlutilib.py:54-105 | without `-f`, rm stops at the first missing pattern or failing removal, printing one line and returning 1 |
| RemoveTouch.RmFilesForced | shlutilib.py:63-78 | the inner loop over matches keeps the forced invariant |
| RemoveTouch.RmFilesStrict | shlutilib.py:63-78 | the inner loop over matches keeps the strict invariant |
| RemoveTouch.RmPatternsForced | shlutilib.py:57-78 | the outer loop over patterns keeps the forced invariant |
| RemoveTouch.RmPatternsStrict | shlutilib.py:57-78 | the outer loop over patterns keeps the strict invariant |
| RemoveTouch.RmForceNothingMatches | shlutilib.py:58-62 | `rm -f` on patterns that match nothing returns 0, prints nothing and changes nothing |
| RemoveTouch.RmMissingFails | shlutilib.py:58-62 | rm without `-f` on a first pattern with no match prints "Can not find file" for it, returns 1 and changes nothing |
| RemoveTouch.Touch | shlutilib.py:345-369 | the loops of `run__touch` compute exactly `TouchOutcome` |
| RemoveTouch.TouchForced | shlutilib.py:345-369 | with `-f`, touch prints nothing, attempts every item, and returns 1 exactly when some call raised |
| RemoveTouch.TouchStrict | shlutilib.py:345-369 | without `-f`, touch stops at the first failure with one message and status 1 |
| RemoveTouch.TouchFilesForced | shlutilib.py:360-368 | the utime loop keeps the forced invariant |
| RemoveTouch.TouchFilesStrict | shlutilib.py:360-368 | the utime loop keeps the strict invariant |
| RemoveTouch.TouchPatternsForced | shlutilib.py:348-368 | the pattern loop, creation included, keeps the forced invariant |
| RemoveTouch.TouchPatternsStrict | shlutilib.py:348-368 | the pattern loop, creation included, keeps the strict invariant |
| RemoveTouch.UtimeDanglingLinkFails | shlutilib.py:362 | `os.utime` on a dangling link raises and changes nothing |
| RemoveTouch.CreateThroughDanglingLink | shlutilib.py:353 | `open` on a dangling link creates the link's target as an empty file and keeps the link |
| RemoveTouch.TouchCreatesMissing | shlutilib.py:350-353 | touching a free, unmatched path in an existing directory creates an empty file there and nothing else, with status 0 |
| Dirs.AddDirs | shlutilib.py:115 | `os.makedirs` makes the path a directory, keeps every directory, and changes nothing off the path's ancestor chain |
| Dirs.MkdirFrom | shlutilib.py:112-126 | the retry loop: at most 100 attempts; retries only after EEXIST while the path is not yet a directory; it succeeds exactly when the path already is a directory or its last attempt made it or raised EEXIST with a directory there; a failure before the 100th attempt is an error other than EEXIST; on success the path is a directory; on failure nothing changes |
| Dirs.MkdirGivesUp | shlutilib.py:112-126 | 100 answers of EEXIST with still no directory make the path fail after exactly 100 attempts, with nothing changed |
| Dirs.MkdirExisting | shlutilib.py:114-116 | a path that is already a directory succeeds at once with no change |
| Dirs.MkdirOtherErrorFailsAtOnce | shlutilib.py:117-126 | an error other than EEXIST fails after one attempt |
| Dirs.MkdirRetryBound | shlutilib.py:112-126 | every earlier attempt of a path saw EEXIST and no directory, and there are at most 100 attempts |
| Dirs.Mkdir | shlutilib.py:107-133 | the loops of `run__mkdir` compute exactly `MkdirOutcome` |
| Dirs.MkdirForced | shlutilib.py:127-130 | with `-f`, mkdir prints nothing, tries every path, and returns 1 iff some path failed |
| Dirs.MkdirStrict | shlutilib.py:127-132 | without `-f`, mkdir stops at the first failing path with "Can not make directory" |
| Dirs.MkdirPathsForced | shlutilib.py:110-132 | the path loop keeps the forced invariant |
| Dirs.MkdirPathsStrict | shlutilib.py:110-132 | the path loop keeps the strict invariant |
| Dirs.MkdirPathsMakeDirs | shlutilib.py:110-133 | a successful mkdir leaves every argument a directory and keeps every existing directory |
| Dirs.MkdirPathsKeepFailure | shlutilib.py:127-128 | once the status is 1 it stays 1 |
| Dirs.MkdirPathsOnDirs | shlutilib.py:114-116 | mkdir on existing directories returns 0, prints nothing and changes nothing |
| Dirs.MkdirIdempotent | shlutilib.py:107-133 | a second mkdir of the same paths after a successful one returns 0 and changes nothing |
| Dirs.Pruned | shlutilib.py:149-156 | `remove_empty_dirs` only deletes entries |
| Dirs.PrunedProperties | shlutilib.py:149-156 | the pruning keeps everything outside the path and every non-directory, and each kept sub-directory still holds a non-directory |
| Dirs.RemoveAncestors | shlutilib.py:161-163 | the ancestor loop removes the path and then its `dirname`s until the first failing `rmdir` |
| Dirs.RemoveDirectories | shlutilib.py:135-166 | the loops of `run__rmdir` compute exactly `RmdirOutcome` |
| Dirs.RmdirRemovesOnlyDirs | shlutilib.py:135-166 | rmdir, in either mode, only ever deletes directories; files and links stay |
| Dirs.RemoveUpOnlyDirs | shlutilib.py:161-163 | the ancestor walk only deletes directories |
| Dirs.RmdirPathsOnlyDirs | shlutilib.py:137-165 | the path loop only deletes directories |
| Dirs.RmdirEmptyPathsQuiet | shlutilib.py:148-165 | in `-e` mode the loop never changes the status or prints |
| Dirs.RmdirEmptyAlwaysSucceeds | shlutilib.py:148-166 | `rmdir -e` always returns 0 and prints nothing |
| Dirs.RmdirPathsForced | shlutilib.py:137-147 | the path loop keeps the forced invariant |
| Dirs.RmdirPathsStrict | shlutilib.py:137-147 | the path loop keeps the strict invariant |
| Dirs.RmdirForced | shlutilib.py:135-166 | with `-f`, rmdir prints nothing and returns 1 iff some `rmdir` raised |
| Dirs.RmdirStrict | shlutilib.py:135-166 | without `-f`, rmdir stops at the first failure with "Can not remove directory" |
| Transfer.PoolMatches | shlutilib.py:178-180 | the pooled matches of all patterns but the last argument, in order |
| Transfer.Mv | shlutilib.py:168-196 | the loops of `run__mv` compute exactly `MvOutcome` |
| Transfer.MoveEach | shlutilib.py:187-195 | the move loop computes exactly `MoveFiles` |
| Transfer.MoveFilesStop | shlutilib.py:187-195 | the move loop keeps the stop-at-first-failure invariant |
| Transfer.MvStopsAtFirstFailure | shlutilib.py:187-195 | once the pre-checks pass, mv stops at the first failing move with status 1, printing only without `-f` |
| Transfer.MvNeedsDirectory | shlutilib.py:181-183 | with more than one match and a destination that is not a directory, mv returns 1 before moving anything, even with `-f` |
| Transfer.DestinationStartsWith | shlutilib.py:189 | a move or copy target lies at or under the destination path |
| Transfer.MoveFilesFrame | shlutilib.py:187-195 | the move loop leaves every path untouched that lies in the tree of no match and does not begin with the destination |
| Transfer.MvFrame | shlutilib.py:168-196 | mv changes no entry outside the trees of the matched files and the paths beginning with the destination |
| Transfer.MvMovesTree | shlutilib.py:187-195 | a single successful move that is not a rename in place carries every entry of the source tree to its rebased path with its kind and leaves nothing of the old tree outside the new one; new directories above the destination appear only when a directory was moved into a missing directory |
| Transfer.MoveIntoItselfFails | shlutilib.py:189 | moving a directory into a directory of its own tree raises and changes nothing |
| Transfer.MoveExample | shlutilib.py:189 | `mv d e` with a file `d/x` and a directory `e` leaves the file at `e/d/x` and nothing at `d` or `d/x` |
| Transfer.MoveOverDanglingLink | shlutilib.py:189 | `mv f e` where `e/f` is a dangling link succeeds: the file replaces the link |
| Transfer.MoveIntoMissingParent | shlutilib.py:189 | `mv d a/b` with a file `d/x` and no `a` succeeds through the copy fallback: `a` and `a/b` are directories, `a/b/x` a file, and nothing is left at `d` or `d/x` |
| Transfer.Cp | shlutilib.py:198-244 | the loops of `run__cp` compute exactly `CpOutcome` |
| Transfer.CopyEach | shlutilib.py:230-243 | the copy loop computes exactly `CopyFiles` |
| Transfer.CpCopiesTree | shlutilib.py:232-237 | a single `cp -r` of a directory that returns 0 found every existing entry of the destination's chain a directory, made the missing ones, and copied every entry below the source to its rebased path below `join(dst, basename(src))` |
| Transfer.CopyUnderFileFails | shlutilib.py:234-237 | copying directory `d` into a file `f` raises at `makedirs("f/d")` and changes nothing |
| Transfer.CopyIntoFreshChild | shlutilib.py:234-237 | `copytree("d", "d/d")` with a file `d/x` completes and leaves a directory `d/d` holding the file `d/d/x` |
| Transfer.CopyFilesStop | shlutilib.py:230-243 | the copy loop keeps the stop-at-first-failure invariant |
| Transfer.CpStopsAtFirstFailure | shlutilib.py:238-243 | cp stops at the first failing copy with status 1, printing only without `-f` |
| Transfer.CpSingleArgument | shlutilib.py:218-219 | cp with one argument behaves as cp to `.` |
| Transfer.CopyFilesSkipsDirectories | shlutilib.py:232-237 | without `-r`, the copy loop passes over anything that is not a file |
| Transfer.CpSkipsDirectoriesSilently | shlutilib.py:232-237 | without `-r`, cp of directories only returns 0, prints nothing, attempts nothing |
| Transfer.CpNeedsDirectory | shlutilib.py:224-226 | with more than one match and a destination that is not a directory, cp returns 1 before copying anything |
| Transfer.CpResUntargeted | shlutilib.py:201-211 | no copy step makes a link to a path that no link named before |
| Transfer.CopyFilesFrame | shlutilib.py:230-243 | the copy loop changes nothing outside the destination except paths that a link names |
| Transfer.CpFrame | shlutilib.py:198-244 | cp changes no entry outside the destination that no link names |
| Transfer.CopyThroughLink | shlutilib.py:210-211 | `cp s l` with `l` a dangling link to `t` keeps the link and creates the file `t` |
| Transfer.CopyThroughLinkIntoMissingDir | shlutilib.py:210-211 | `cp s m` with `m` a link to `n/t` and no `n` raises and changes nothing |
| Transfer.CpRecreatesLink | shlutilib.py:202-209 | with `-P`, a copied link becomes a link to the same target at the destination |
| Transfer.LinkTarget | shlutilib.py:254 | the target with every `/` and `\` replaced by the host separator, same length |
| Transfer.MklinkContract | shlutilib.py:246-262 | fewer than 2 arguments → 8 and "Invalid parameter"; otherwise the link is made, when its path is free and its directory exists, with directory semantics for `-D` or a directory target, and a failure returns 1 with a message only without `-f` |
| WslPaths.Slashed | shlutilib.py:552 | backslashes become slashes, nothing else changes |
| WslPaths.IsWslWinPath | shlutilib.py:335-343 | prints `true` exactly for `/mnt/<letter>` alone or followed by `/`, `false` otherwise, and always returns 0 |
| WslPaths.Win2WslDrive | shlutilib.py:549-557 | `D:rest` becomes `/mnt/d` + rest with trailing slashes stripped |
| WslPaths.Wsl2WinMount | shlutilib.py:560-569 | `/mnt/c` becomes `C:/` and `/mnt/c/rest` becomes `C:/rest` |
| WslPaths.WinRoundTrip | shlutilib.py:549-569 | `wsl2win(win2wsl(D:/rest)) == D:/rest` for an upper-case drive and a rest without a trailing slash |
| WslPaths.DriveRoot | shlutilib.py:549-569 | `D:` and `D:/` map to `/mnt/d`, and `/mnt/d` maps back to `D:/` |
| WslPaths.WslRoundTrip | shlutilib.py:549-569 | `win2wsl(wsl2win(/mnt/c/rest)) == /mnt/c/rest` for a lower-case drive |
| WslPaths.RecognisedIffRewritten | shlutilib.py:335-343 | `is_wsl_win_path` says `true` exactly when `wsl2win_path` rewrites the path |
| Versions.Components | shlutilib.py:378-379 | the padded argument split at `.` and cut to exactly 4 fields |
| Versions.ParseAll | shlutilib.py:378-379 | parsing succeeds exactly when every field is a non-empty digit string, with one number per field |
| Versions.CmpSwap | shlutilib.py:380-385 | list comparison is antisymmetric |
| Versions.CmpZero | shlutilib.py:382 | list comparison says equal exactly for equal lists |
| Versions.CmpLess | shlutilib.py:380-385 | on equal lengths, "less" means a first differing position with a smaller value |
| Versions.CmpTrans | shlutilib.py:380-385 | list comparison is transitive |
| Versions.CmpVer | shlutilib.py:376-390 | prints `+`, `0`, `-` or `''`; status 1, 0, 2 or 8 accordingly, always 0 with `-f`; "Invalid arguments" exactly when a version is missing or malformed |
| Versions.CmpVerOrder | shlutilib.py:380-385 | `+`, `0` and `-` mean greater, equal and less in the lexicographic order of the 4-tuples |
| Versions.CmpVerSwap | shlutilib.py:376-390 | swapping the arguments swaps `+` and `-` and keeps `0` and `''` |
| Versions.CmpVerReflexive | shlutilib.py:376-390 | a valid version equals itself: `0` and status 0 |
| Versions.PaddingIsNeutral | shlutilib.py:378 | with fewer than 4 fields, appending `.0` does not change the components |
| Versions.TruncationIgnoresTail | shlutilib.py:378 | with 4 or more fields, anything after them is never parsed |
| Versions.EmptyComponentRejected | shlutilib.py:386-390 | an empty field among the first four makes cmpver print `''`, report "Invalid arguments" and return 8, or 0 with `-f` |
| Versions.ExampleLess | shlutilib.py:376-390 | `cmpver 1.2.3 1.2.4` prints `-` and returns 2 |
| Versions.ExampleEqual | shlutilib.py:376-390 | `cmpver 1.2 1.2.0.0` prints `0` and returns 0 |
| Upload.RemoteDir | shlutilib.py:486 | the URL path, or `/` when it is empty |
| Upload.Squeeze | shlutilib.py:525-526 | the result has no `//`, is no longer than the input, and keeps its first character |
| Upload.CollapseSlashes | shlutilib.py:525-526 | the `while '//' in ...` replace loop ends with exactly `Squeeze` of its input, so no `//` remains |
| Upload.ReplacePreservesSqueeze | shlutilib.py:526 | one `replace('//', '/')` pass does not change what the loop converges to |
| Upload.SqueezeFixed | shlutilib.py:525 | a path without `//` is left as it is |
| Upload.RemoteFor | shlutilib.py:518-526 | the remote path of one match: relative paths under the URL path, a trailing `/` gets the local basename, then `//` collapsed |
| Upload.PlanItem | shlutilib.py:515-526 | the transfers of one argument: every non-directory match of its local part, in order |
| Upload.PlanUploads | shlutilib.py:514-526 | the transfers of all arguments in order |
| Upload.ItemMatchesProps | shlutilib.py:516-526 | every planned transfer is a non-directory match with the computed remote path |
| Upload.PlanProps | shlutilib.py:514-526 | every planned transfer has a local non-directory and a remote path without `//` |
| Upload.NoDoubleSlash | shlutilib.py:525-526 | no computed remote path contains `//` |
| Upload.BareLocalUnderRemoteDir | shlutilib.py:518-521 | a bare `local` goes to `remote_dir/basename(local)` |
| Upload.TrailingSlashGetsBasename | shlutilib.py:522-524 | an absolute remote ending in `/` gets the local basename appended |
| Upload.RelativeRemoteUnderRemoteDir | shlutilib.py:520-521 | a relative remote is joined to the URL path |
| Ndk.VersionKey | shlutilib.py:594-603 | a name of the form `X.Y.Z[.w]` has a key of three numbers |
| Ndk.ReleaseParts | shlutilib.py:595 | a name of the form `android-ndk-r<digits><lower letters>` and its two parts |
| Ndk.LetterDigits | shlutilib.py:609-610 | each letter mapped `a`→`0` … `j`→`9` and beyond |
| Ndk.VersionNameKey | shlutilib.py:594-603 | `X.Y.Z[.w]` keys as `[X, Y, Z]` |
| Ndk.ReleaseNameNotVersion | shlutilib.py:600-606 | a release name never matches the first pattern |
| Ndk.ReleaseNameKey | shlutilib.py:605-612 | `android-ndk-rN<letters>` keys as `[N, letters read as digits, 0]`, and a letter after `j` makes `int()` raise |
| Ndk.ScanLoop | shlutilib.py:597-613 | the listing loop keeps, in order, the names with the toolchain file and a key, or reports the raising name |
| Ndk.ScanCrashedStays | shlutilib.py:597-613 | once a key raised, the whole loop raises |
| Ndk.FirstMax | shlutilib.py:615-616 | the index of the earliest candidate with the greatest key |
| Ndk.PickNewest | shlutilib.py:615-616 | the selection loop finds exactly `FirstMax` |
| Ndk.ChooseNdk | shlutilib.py:594-621 | the whole name scan and choice computes exactly `NdkRoot` |
| Ndk.ChosenIsNewest | shlutilib.py:614-621 | a chosen directory has the greatest key, and is the earliest listed among equal keys |
| Ndk.NewestUnique | shlutilib.py:615-616 | only one candidate is the newest |
| Ndk.NdkRootCommand | shlutilib.py:425-430 | `ndk-root` prints the path and returns 0 when one was found, otherwise returns 7 |
| Dispatch.MethodSuffix | shlutilib.py:667-668 | the command with every `-` turned into `_`, same length |
| Dispatch.Select | shlutilib.py:666-675 | a command runs exactly when its method name exists; otherwise status 8 with "Missing command" for the empty command or "Unrecognized command" |
| Dispatch.HyphenUnderscore | shlutilib.py:668 | `-` and `_` are interchangeable in command names |
| Dispatch.UnknownCommandReported | shlutilib.py:669-675 | an unknown command is reported by name and returns 8 |
| Dispatch.ListedNamesAccepted | shlutilib.py:666-668 | every command of the executor is accepted under its own name |
| Legacy.LegacyRm | shellutil.py:23-62 | the rm branch of `run_shell_command` computes exactly `LegacyRmOutcome` |
| Legacy.LegacyRmEach | shellutil.py:31-42 | the inner rm loop computes exactly `LegacyRmFiles` |
| Legacy.LegacyRmRes | shellutil.py:56 | with `-r -f`, `rmtree(ignore_errors=True)` never raises |
| Legacy.LegacyRmForced | shellutil.py:23-62 | with `-f`, rm prints nothing and returns 1 iff some removal raised |
| Legacy.LegacyRmStrict | shellutil.py:23-62 | without `-f`, rm stops at the first missing pattern or failure with one message |
| Legacy.LegacyRmFilesForced | shellutil.py:31-42 | the inner loop keeps the forced invariant |
| Legacy.LegacyRmFilesStrict | shellutil.py:31-42 | the inner loop keeps the strict invariant |
| Legacy.LegacyRmPatternsForced | shellutil.py:26-42 | the pattern loop keeps the forced invariant |
| Legacy.LegacyRmPatternsStrict | shellutil.py:26-42 | the pattern loop keeps the strict invariant |
| Legacy.LegacyRmFilesTreesOk | shellutil.py:51-60 | with `-r -f`, no attempted tree removal is recorded as failed |
| Legacy.LegacyRmPatternsTreesOk | shellutil.py:46-60 | the same over all patterns |
| Legacy.LegacyRecursiveForceIgnoresTreeErrors | shellutil.py:56 | with `-r -f`, directory removal never changes the status: a status of 1 comes from a failed file removal |
| Legacy.LegacyRmFilesCalls | shellutil.py:51-56 | with `-r`, only `os.remove` and `rmtree` are attempted |
| Legacy.LegacyRmPatternsCalls | shellutil.py:46-56 | the same over all patterns |
| Legacy.LegacyRmLeavesOthers | shellutil.py:31-36 | entries that are neither files nor directories are left alone without error |
| Legacy.LegacyMvCpContract | shellutil.py:101-125 | mv and cp need exactly 2 arguments, otherwise 1 and "Invalid parameter {0} for mv/cp"; then one call whose failure returns 1 even with `-f` |
| Legacy.LegacyMain | shellutil.py:241-245 | no command at all prints "Missing command" and returns 8 |
| Legacy.LegacyUnknownCommand | shellutil.py:222-225 | a command outside the branches prints "Unknown command" plus the name and returns 8, changing nothing |
| Legacy.LegacyMkdirTouchForceRule | shellutil.py:64-88 | mkdir and touch follow the forced and strict invariants |
| Legacy.LegacyMkdirExisting | shellutil.py:64-88 | mkdir on an existing directory returns 0, prints nothing and changes nothing |
| Legacy.LegacyCmpVer | shellutil.py:170-184 | the cmpver branch is the same padded, truncated comparison: `+`/1, `0`/0, `-`/2, `''`/8, 0 with `-f` |
| RmakeLaunch.GetWorkspaceDir | rmakelib.py:407-421 | the ancestor loop computes exactly `WorkspaceFrom` |
| RmakeLaunch.WorkspaceNearest | rmakelib.py:407-421 | the result is the nearest ancestor, the start included, with a marker file or a `.git` directory, or the start when there is none |
| RmakeLaunch.ChainStep | rmakelib.py:417-420 | the ancestor chain stops at the first path that is its own `dirname` |
| RmakeLaunch.ClassifyArg | rmakelib.py:548-563 | the inner option loop classifies exactly as `Classify` |
| RmakeLaunch.SplitWslArgs | rmakelib.py:546-566 | the argument loop computes exactly `SplitArgs` |
| RmakeLaunch.SplitStep | rmakelib.py:546-566 | an option takes the next argument as its value, an `=` form is copied, anything else goes to rmake (an empty argument is dropped), and a missing value ends the loop |
| RmakeLaunch.RenamedOptions | rmakelib.py:548-551 | `--wsl-distribution`, `--wsl-d`, `--wsl-user` and `--wsl-u` become `--distribution`, `-d`, `--user` and `-u` |
| RmakeLaunch.RenamedLong | rmakelib.py:550-551 | a long option loses its `wsl-` part |
| RmakeLaunch.RenamedShort | rmakelib.py:550-551 | a short option becomes one dash and its letter |
| RmakeLaunch.ClassifyPlain | rmakelib.py:548-565 | an argument not starting with `--wsl-` goes to rmake |
| RmakeLaunch.InlineOption | rmakelib.py:560-563 | `option=value` is copied to the `wsl.exe` arguments as it is |
| RmakeLaunch.RmakeArgsKeepOrder | rmakelib.py:564-565 | the rmake arguments are a subsequence of the input, in order, each non-empty and not a WSL option |
| RmakeLaunch.SplitArgsCount | rmakelib.py:546-566 | no argument is duplicated, and none is lost when none is empty |
| RmakeLaunch.SplitArgsPlain | rmakelib.py:546-566 | without WSL options, every argument goes to rmake unchanged |
| RmakeLaunch.MissingValueIsLast | rmakelib.py:552-555 | a missing value can only be for a WSL option that is the last argument |
| RmakeLaunch.SplitExample | rmakelib.py:546-566 | `--wsl-d --wsl-u` gives `-d --wsl-u` to `wsl.exe`, and `build --wsl-u` is an error |
| RmakeLaunch.RmakeProgram | rmakelib.py:569-572 | the program path always contains `/` |
| RmakeLaunch.WslMain | rmakelib.py:541-577 | a missing value returns 1; otherwise `wsl.exe --shell-type login` starts the command line |
| RmakeLaunch.WslMainCommand | rmakelib.py:541-577 | the command line is the prefix, the WSL options, the program path, then the rmake arguments in their order |
| RmakeConfig.DstFor | rmakelib.py:139-150 | a derived destination starts with the remote root |
| RmakeConfig.DstDerivation | rmakelib.py:139-150 | no destination exactly when `/<basename(remote_root)>/` does not occur; otherwise the remote root plus the suffix after its first occurrence |
| RmakeConfig.RsyncDefaults | rmakelib.py:154-166 | at most one include and one exclude default, after the given options; an include only when none was given and the file exists; an exclude tries `.rmake-excludes`, then `.gitignore`, then nothing |
| RmakeConfig.NonAssignments | rmakelib.py:169 | every command is free of `=` |
| RmakeConfig.Assignments | rmakelib.py:172 | every make variable holds `=` |
| RmakeConfig.CommandsPartition | rmakelib.py:169-172 | every argument is either a command or a make variable, and both keep their order |
| RmakeConfig.DefaultCommand | rmakelib.py:170-171 | with no commands, the commands are `['build']`, and `build` is a make target |
| RmakeConfig.LiteralMatch | rmakelib.py:202 | an alternative without `*` matches only itself |
| RmakeConfig.StarSuffix | rmakelib.py:202 | `prefix*` matches `prefix` plus any line |
| RmakeConfig.CmakeVariant | rmakelib.py:95-96 | every `cmake-...` name is a default make target |
| RmakeConfig.HookPrecedence | rmakelib.py:184-210 | built-in names win over the hook; the hook wins unless it returns -1 (which `RmakeUserBase.exec_command` does for all); then make targets; then an error |
| RmakeConfig.Forward | rmakelib.py:370-373 | after a forward sync the flag is set and the backward flag is unchanged |
| RmakeConfig.ForwardAtMostOnce | rmakelib.py:184-210 | the loop runs `user.sync_forward` at most once, and not at all when it ran before |
| RmakeConfig.BackFlag | rmakelib.py:202-208 | after the loop, the backward flag is set iff it was before or some command was a make target without `clean` |
| RmakeConfig.StopsAtUnknown | rmakelib.py:209-210 | a stopped loop stops at the first command that nothing handles |
| RmakeConfig.MakeCalls | rmakelib.py:401-404 | every `make` the loop starts is `['make', target] + make_vars` |
| Rmake.RsyncMake.constructor | rmakelib.py:98-125 | fresh defaults: `RSYNC_ARGS`, `MAKE_TARGETS`, empty lists, both flags false, workspace from the script directory |
| Rmake.RsyncMake.SyncForward | rmakelib.py:370-373 | runs the user's forward sync and sets the flag only the first time |
| Rmake.RsyncMake.SyncBackward | rmakelib.py:388-389 | only sets `need_sync_backward` |
| Rmake.RsyncMake.RunMake | rmakelib.py:401-404 | records `['make', target] + make_vars` and changes nothing else |
| Rmake.RsyncMake.RunCommand | rmakelib.py:184-210 | one pass of the command loop; `false` for a command nothing handles |
| Rmake.RsyncMake.DeriveRsyncArgs | rmakelib.py:154-166 | the options appended, then the defaults |
| Rmake.RsyncMake.DeriveCommands | rmakelib.py:169-172 | commands and make variables extended in order, `build` by default |
| Rmake.RsyncMake.Prepare | rmakelib.py:132-179 | the destination error, or the derived fields and the directory checks |
| Rmake.RsyncMake.RunCommands | rmakelib.py:184-210 | the loop runs every command in order up to the first unknown one |
| Rmake.RsyncMake.Run | rmakelib.py:127-215 | the new fields, status and error are exactly `RunSpec` of the old fields |
| Rmake.RunStatus | rmakelib.py:127-227 | `run` returns 0 exactly when no error, and errors exit with 1 |
| Rmake.RunNeedsGitHome | rmakelib.py:139-148 | without `--dst-dir` and without a matching ancestor, `run` exits with 1 before any command |
| Rmake.RunDerivesFields | rmakelib.py:133-172 | the derived source, destination, rsync options, commands and make variables |
| Rmake.RunChecksDirs | rmakelib.py:174-179 | a missing source directory, or nested source and destination, exit with 1 before any command |
| Rmake.RunReachesCommands | rmakelib.py:184-214 | past the checks, `run` is the command loop and the final sync |
| Rmake.RunForwardAtMostOnce | rmakelib.py:184-214 | one run calls `user.sync_forward` at most once |
| Rmake.RunBackwardAtEnd | rmakelib.py:202-214 | a successful run ends with one `user.sync_backward` exactly when the flag was set before or by a make target without `clean` |
| Rmake.RunStopsAtUnknown | rmakelib.py:209-227 | an unknown command exits with 1 at the first such command, without the final sync |
| Rmake.RunMakeArguments | rmakelib.py:401-404 | every `make` of a run gets that run's make variables |
| Rmake.FreshRunBuilds | rmakelib.py:170-214 | a fresh object given only variables syncs forward, runs `make build` with them, and syncs back at the end |

## Left out

- Reading `rm` arguments from stdin through `shlex`: library lexing; the model takes the arguments as given.
- The `onerror` chmod-and-retry of `shutil.rmtree`, the failures of the copy-and-delete fallback of `shutil.move` across filesystems, and permission errors of every call: a `Fault(call, path)` entry stands for them.
- FileSystem.OsMove: when the copy fallback of a directory meets a special file, `copytree` raises after making the missing directories and copying the rest, while the model leaves the state unchanged. Links that the fallback recreates keep their directory flag in the model, while `os.symlink` without `target_is_directory` would make them file links on Windows.
- Paths given to the filesystem commands are taken normalised: `d` and `d/` are different keys of the abstract filesystem, so a trailing `/` on an argument other than the root is not modelled, and the same-file tests of `shutil.move` and `shutil.copy2` compare paths.
- FileSystem.OsCopyTree: the contents of a linked directory are not copied, neither inside the copied tree nor when the source argument itself is a link to a directory (`cp -r l dst` makes an empty `dst/l`), because the abstract filesystem does not resolve paths through links. An existing destination entry whose kind clashes with its copy is overwritten; `copytree` would raise or copy into it instead. A copy onto the source itself (`cp -r p/d p`) is refused with nothing changed. `copytree` completes it only when the tree holds directories and links to directories whose own trees hold no files. Under `-P`, a link to a file or a dangling link in the tree is deleted by the `os.unlink` of the link copy before `os.readlink` of the same path raises, so the real copy ends with status 1 and the link gone, while the model keeps it. A copy deeper into the source's tree, or into an existing child of it, is refused outright; `copytree` copies into it in an order that depends on `os.scandir` and may complete or fail. A fault leaves the state unchanged, though the real call may have copied part of the tree.
- Dirs.Pruned: a link to a directory is kept as a leaf, both below the pruned path and as the argument itself. `os.path.isdir` follows such a link (shlutilib.py:153 and 157), so `remove_empty_dirs` also prunes the linked directory's tree, possibly outside the path, and `os.rmdir` of the link then raises: below the path the error ends the prune, and for the argument itself it is passed over. The model finds nothing below a link. A failing `os.rmdir` part-way through leaves the removals made before it in place, while the model's `Prune` fault leaves the state unchanged. Both need path resolution through links and an order of `os.listdir`, which the abstract filesystem does not have.
- Transfer.CpFrame: a path that some link names is outside its frame, because `copy2` writes through a link at its destination to the link's target, wherever that lies.
- Dirs.PrunedProperties: its frame (nothing outside the path changes) and its complete prune hold only for trees without links to directories and without a failing `os.rmdir`, for the reasons given for `Dirs.Pruned`.
- Dirs.RemoveDirectories: under `-e` it inherits the gaps of `Dirs.Pruned`.
- Transfer.Cp: with `-r` it inherits the gaps of `FileSystem.OsCopyTree`.
- Transfer.CopyEach: with `-r` it inherits the gaps of `FileSystem.OsCopyTree`.
- Dirs.MkdirFrom: the retry oracle is not tied to the state, so it may answer `Made` for a path that names a file, which `os.makedirs` answers with `EEXIST`, or for one below a file, which it answers with `ENOTDIR`.
- What `glob.glob` matches: it is a parameter.
- `os.path.abspath`, `realpath`, `relpath` and `isabs`: host-dependent. The path converters, `is_wsl_win_path` and `RsyncMake.run` work on already-normalised strings, and the relative path of the rmake program is a parameter of `WslMain`.
- `str.isalpha`, `lower` and `upper` on non-ASCII letters: only ASCII is modelled.
- The exact strings Python's `int()` accepts (signs, whitespace, `_`): a field parses exactly when it is a non-empty ASCII digit string.
- `run__fix_symlink`: it depends on WSL detection and on Windows junctions that the abstract filesystem cannot express.
- `run__winreg`, `run__cargo_exec`, `run__timestamp`, `run__cwd`, `run__mydir`, `run__relpath`, the `win2wsl-path` and `wsl2win-path` printing wrappers, and the `--list` listing of `main`: the Windows registry, TOML, environment, clock and working directory are host state.
- The FTP and SFTP transfer, the URL parsing and connection handling of `run__upload`: only its remote-path computation is modelled.
- The environment-variable and `os.listdir` parts of `ndk_root`: the SDK directory, the listed names and the toolchain-file test are parameters.
- Ndk.NdkRootCommand: a key that raises `ValueError` escapes the command; the model reports that case without an exit status.
- Dispatch.Select: an `AttributeError` raised inside a command, which `main` would report as an unrecognised command, is not modelled.
- The 1 ms `time.sleep` between mkdir retries, all printing to stdout other than the `cmpver`, `is-wsl-win-path` and `ndk-root` results, and the stderr line of `ndk_root` saying that `ANDROID_HOME` is not set (the `NoSdk` outcome carries no message).
- `KeyboardInterrupt` handling (exit 254): signals are outside the model.
- The git clone and checkout logic, the rsync, make, `exec` and `wsl.exe` subprocesses, `os.chdir`, and `load_user_script`: these are recorded as `Action` values or left to the caller. A failing subprocess (`check_call` raising) is not modelled.
- The user script's `sync_forward`, `sync_backward` and `exec_command` bodies: they appear as opaque events in the trace; `exec_command` is a map from command to its answer, -1 when absent, as in `RmakeUserBase`.
- The `user.exec_command` query itself: it is made for every command that is not built in, but the trace records a `UserCommand` event only when the answer is not -1, so a query answered with -1 leaves no event.
- The `rsync: [...]` line `run` prints, and the exact wording of its error messages: errors are `RunError` values.
- Make-target matching: only `*` is given its regex meaning (any characters but a newline); other regex metacharacters in `MAKE_TARGETS` are taken literally, which matches the shipped targets.
- The argparse setup of `RsyncMake.main` and its `exec` splitting loop: they depend on argparse behaviour.
- The `HostDependent` branches of `Legacy.RunShellCommand` (`cwd`, `mydir`, `relpath`, `winreg`): host state.
- rmake.py and shlutil.py: entry-point shims.
