/** `ShellCmd.run__mkdir` (with its bounded retry on EEXIST) and
    `ShellCmd.run__rmdir` (plain, and the `-e` mode that prunes empty
    sub-directories and then empty ancestors). */
module Dirs {
  import opened Text
  import opened FileSystem
  import opened Runs

  const MAX_ATTEMPTS := 100

  /** What one `os.makedirs` attempt does: it creates the directory, raises
      EEXIST (after which the path may be a directory made by a concurrent
      process), or raises another error. */
  datatype MkAttempt = Made | ExistsErr(nowDir: bool) | OtherErr

  /** The outcome of the n-th attempt on a path, supplied from outside. */
  type MkOracle = (string, nat) -> MkAttempt

  /** Every directory below which a path lies, and the path, as `makedirs`
      leaves them. */
  function AddDirs(fs: Fs, p: string): (r: Fs)
    ensures IsDir(r, p)
    ensures forall q :: IsDir(fs, q) ==> IsDir(r, q)
    ensures forall q :: q in fs && q !in Chain(p) ==> q in r && r[q] == fs[q]
  {
    (fs + MissingDirs(fs, p))[p := Dir]
  }

  /** The result of the retry loop for one path: success, the state it left,
      and how many `makedirs` calls it made. */
  datatype MkResult = MkResult(ok: bool, fs: Fs, attempts: nat)

  /** The retry loop from attempt `k` on: an EEXIST that leaves no directory
      behind is retried, anything else ends the loop. */
  function MkdirFrom(fs: Fs, mk: MkOracle, p: string, k: nat): (r: MkResult)
    requires k <= MAX_ATTEMPTS
    ensures k <= r.attempts <= MAX_ATTEMPTS
    ensures r.ok ==> IsDir(r.fs, p) && forall q :: IsDir(fs, q) ==> IsDir(r.fs, q)
    ensures !r.ok ==> r.fs == fs
    ensures forall j :: k <= j < r.attempts - 1 ==> mk(p, j) == ExistsErr(false)
    ensures IsDir(fs, p) && k < MAX_ATTEMPTS ==> r == MkResult(true, fs, k)
    ensures r.ok <==> (IsDir(fs, p) && k < MAX_ATTEMPTS)
                      || (r.attempts > k && (mk(p, r.attempts - 1) == Made || mk(p, r.attempts - 1) == ExistsErr(true)))
    ensures !r.ok && r.attempts < MAX_ATTEMPTS ==> r.attempts > k && mk(p, r.attempts - 1) == OtherErr
    decreases MAX_ATTEMPTS - k
  {
    if k == MAX_ATTEMPTS then MkResult(false, fs, k)
    else if IsDir(fs, p) then MkResult(true, fs, k)
    else match mk(p, k)
      case Made => MkResult(true, AddDirs(fs, p), k + 1)
      case ExistsErr(nowDir) =>
        if nowDir then MkResult(true, fs[p := Dir], k + 1) else MkdirFrom(fs, mk, p, k + 1)
      case OtherErr => MkResult(false, fs, k + 1)
  }

  function MkdirOne(fs: Fs, mk: MkOracle, p: string): MkResult {
    MkdirFrom(fs, mk, p, 0)
  }

  /** An existing directory is left alone and counts as success. */
  lemma MkdirExisting(fs: Fs, mk: MkOracle, p: string)
    requires IsDir(fs, p)
    ensures MkdirOne(fs, mk, p) == MkResult(true, fs, 0)
  {
  }

  /** An error other than EEXIST is not retried. */
  lemma MkdirOtherErrorFailsAtOnce(fs: Fs, mk: MkOracle, p: string)
    requires !IsDir(fs, p) && mk(p, 0) == OtherErr
    ensures MkdirOne(fs, mk, p) == MkResult(false, fs, 1)
  {
  }

  /** Retries happen only after an EEXIST that left no directory, at most
      100 calls are made, and the path is a directory on success. */
  lemma MkdirRetryBound(fs: Fs, mk: MkOracle, p: string)
    ensures var r := MkdirOne(fs, mk, p);
            && r.attempts <= MAX_ATTEMPTS
            && (forall j :: 0 <= j < r.attempts - 1 ==> mk(p, j) == ExistsErr(false))
            && (r.ok ==> IsDir(r.fs, p))
            && (!r.ok ==> r.fs == fs)
  {
  }

  /** When every attempt from `k` on raises EEXIST without the path
      becoming a directory, the loop gives up after the 100th call. */
  lemma {:induction false} MkdirGivesUp(fs: Fs, mk: MkOracle, p: string, k: nat)
    requires k <= MAX_ATTEMPTS && !IsDir(fs, p)
    requires forall j :: k <= j < MAX_ATTEMPTS ==> mk(p, j) == ExistsErr(false)
    ensures MkdirFrom(fs, mk, p, k) == MkResult(false, fs, MAX_ATTEMPTS)
    decreases MAX_ATTEMPTS - k
  {
    if k < MAX_ATTEMPTS {
      MkdirGivesUp(fs, mk, p, k + 1);
    }
  }

  function MkdirPaths(o: Options, mk: MkOracle, r: Run, paths: seq<string>): Run
    decreases |paths|
  {
    if paths == [] || r.done then r
    else
      var m := MkdirOne(r.fs, mk, paths[0]);
      MkdirPaths(o, mk, Try(r, o.force, Makedirs, paths[0], Res(m.ok, m.fs), CannotMakeDirectory(paths[0])), paths[1..])
  }

  /** What `mkdir` does to a state. */
  function MkdirOutcome(o: Options, args: seq<string>, fs: Fs, mk: MkOracle): Run {
    MkdirPaths(o, mk, Start(fs), args)
  }

  method Mkdir(o: Options, args: seq<string>, fs0: Fs, mk: MkOracle)
    returns (status: int, fs: Fs, err: seq<Message>)
    ensures var r := MkdirOutcome(o, args, fs0, mk);
            status == r.status && fs == r.fs && err == r.err
  {
    status, fs, err := 0, fs0, [];
    ghost var tried: seq<Attempt> := [];
    var i := 0;
    while i < |args|
      invariant 0 <= i <= |args|
      invariant MkdirPaths(o, mk, Run(status, fs, err, tried, false), args[i..]) == MkdirOutcome(o, args, fs0, mk)
    {
      var path := args[i];
      assert args[i..][1..] == args[i + 1..];
      var ok := false;
      var after := fs;
      var attempt := 0;
      var stop := false;
      while attempt < MAX_ATTEMPTS && !stop
        invariant 0 <= attempt <= MAX_ATTEMPTS
        invariant stop ==> MkdirOne(fs, mk, path).ok == ok && MkdirOne(fs, mk, path).fs == after
        invariant !stop ==> !ok && after == fs && MkdirFrom(fs, mk, path, attempt) == MkdirOne(fs, mk, path)
        decreases if stop then 0 else 1, MAX_ATTEMPTS - attempt
      {
        if IsDir(fs, path) {
          ok, stop := true, true;
        } else {
          var outcome := mk(path, attempt);
          attempt := attempt + 1;
          match outcome
          case Made =>
            ok, after, stop := true, AddDirs(fs, path), true;
          case ExistsErr(nowDir) =>
            if nowDir {
              ok, after, stop := true, fs[path := Dir], true;
            }
          case OtherErr =>
            stop := true;
        }
      }
      tried := tried + [Attempt(Makedirs, path, ok)];
      if ok {
        fs := after;
      } else {
        status := EFAIL;
        if !o.force {
          err := err + [CannotMakeDirectory(path)];
          return;
        }
      }
      i := i + 1;
    }
  }

  lemma {:induction false} MkdirPathsForced(o: Options, mk: MkOracle, r: Run, paths: seq<string>)
    requires o.force && ForcedRun(r)
    ensures ForcedRun(MkdirPaths(o, mk, r, paths))
    decreases |paths|
  {
    if paths != [] {
      var m := MkdirOne(r.fs, mk, paths[0]);
      var r1 := Try(r, o.force, Makedirs, paths[0], Res(m.ok, m.fs), CannotMakeDirectory(paths[0]));
      TryForced(r, Makedirs, paths[0], Res(m.ok, m.fs), CannotMakeDirectory(paths[0]));
      MkdirPathsForced(o, mk, r1, paths[1..]);
    }
  }

  lemma {:induction false} MkdirPathsStrict(o: Options, mk: MkOracle, r: Run, paths: seq<string>)
    requires !o.force && StrictRun(r)
    ensures StrictRun(MkdirPaths(o, mk, r, paths))
    decreases |paths|
  {
    if paths != [] && !r.done {
      var m := MkdirOne(r.fs, mk, paths[0]);
      var r1 := Try(r, o.force, Makedirs, paths[0], Res(m.ok, m.fs), CannotMakeDirectory(paths[0]));
      TryStrict(r, Makedirs, paths[0], Res(m.ok, m.fs), CannotMakeDirectory(paths[0]));
      MkdirPathsStrict(o, mk, r1, paths[1..]);
    }
  }

  /** With `-f`, `mkdir` writes nothing and fails exactly when some path
      could not be made. */
  lemma MkdirForced(o: Options, args: seq<string>, fs: Fs, mk: MkOracle)
    requires o.force
    ensures ForcedRun(MkdirOutcome(o, args, fs, mk))
  {
    MkdirPathsForced(o, mk, Start(fs), args);
  }

  /** Without `-f`, `mkdir` stops at the first path it cannot make. */
  lemma MkdirStrict(o: Options, args: seq<string>, fs: Fs, mk: MkOracle)
    requires !o.force
    ensures StrictRun(MkdirOutcome(o, args, fs, mk))
  {
    MkdirPathsStrict(o, mk, Start(fs), args);
  }

  /** A successful `mkdir` leaves every argument a directory, and keeps every
      directory that was one. */
  lemma {:induction false} MkdirPathsMakeDirs(o: Options, mk: MkOracle, r: Run, paths: seq<string>)
    requires r.status == 0 && !r.done
    ensures var r' := MkdirPaths(o, mk, r, paths);
            r'.status == 0 ==> (forall k :: 0 <= k < |paths| ==> IsDir(r'.fs, paths[k]))
                               && (forall q :: IsDir(r.fs, q) ==> IsDir(r'.fs, q))
    decreases |paths|
  {
    if paths != [] {
      var m := MkdirOne(r.fs, mk, paths[0]);
      var r1 := Try(r, o.force, Makedirs, paths[0], Res(m.ok, m.fs), CannotMakeDirectory(paths[0]));
      var r' := MkdirPaths(o, mk, r, paths);
      assert r' == MkdirPaths(o, mk, r1, paths[1..]);
      if m.ok {
        MkdirPathsMakeDirs(o, mk, r1, paths[1..]);
        if r'.status == 0 {
          forall k | 0 <= k < |paths| ensures IsDir(r'.fs, paths[k]) {
            if k > 0 {
              assert paths[k] == paths[1..][k - 1];
            }
          }
        }
      } else {
        MkdirPathsKeepFailure(o, mk, r1, paths[1..]);
      }
    }
  }

  /** Once EFAIL, the status stays EFAIL. */
  lemma {:induction false} MkdirPathsKeepFailure(o: Options, mk: MkOracle, r: Run, paths: seq<string>)
    requires r.status == EFAIL
    ensures MkdirPaths(o, mk, r, paths).status == EFAIL
    decreases |paths|
  {
    if paths != [] && !r.done {
      var m := MkdirOne(r.fs, mk, paths[0]);
      MkdirPathsKeepFailure(o, mk, Try(r, o.force, Makedirs, paths[0], Res(m.ok, m.fs), CannotMakeDirectory(paths[0])), paths[1..]);
    }
  }

  /** On paths that are all directories, `mkdir` changes nothing. */
  lemma {:induction false} MkdirPathsOnDirs(o: Options, mk: MkOracle, r: Run, paths: seq<string>)
    requires r.status == 0 && !r.done && r.err == []
    requires forall k :: 0 <= k < |paths| ==> IsDir(r.fs, paths[k])
    ensures var r' := MkdirPaths(o, mk, r, paths);
            r'.status == 0 && r'.fs == r.fs && r'.err == []
    decreases |paths|
  {
    if paths != [] {
      MkdirExisting(r.fs, mk, paths[0]);
      var r1 := Try(r, o.force, Makedirs, paths[0], Res(true, r.fs), CannotMakeDirectory(paths[0]));
      forall k | 0 <= k < |paths[1..]| ensures IsDir(r1.fs, paths[1..][k]) {
        assert paths[1..][k] == paths[k + 1];
      }
      MkdirPathsOnDirs(o, mk, r1, paths[1..]);
    }
  }

  /** `mkdir` is idempotent: run again on what a successful run left, it
      succeeds, writes nothing and changes nothing, whatever the retry
      oracle says. */
  lemma MkdirIdempotent(o: Options, args: seq<string>, fs: Fs, mk: MkOracle, mk2: MkOracle)
    requires MkdirOutcome(o, args, fs, mk).status == 0
    ensures var r1 := MkdirOutcome(o, args, fs, mk);
            var r2 := MkdirOutcome(o, args, r1.fs, mk2);
            r2.status == 0 && r2.fs == r1.fs && r2.err == []
  {
    var r1 := MkdirOutcome(o, args, fs, mk);
    MkdirPathsMakeDirs(o, mk, Start(fs), args);
    MkdirPathsOnDirs(o, mk2, Start(r1.fs), args);
  }

  /** Every entry strictly below `d` is a directory. */
  predicate OnlyDirsBelow(fs: Fs, d: string) {
    forall q :: q in fs && Under(q, d) ==> fs[q].Dir?
  }

  /** What the recursive `remove_empty_dirs` walk leaves: it removes each
      directory below `p` whose whole subtree holds directories only, since
      those are the ones that are empty once their sub-directories have
      been processed. A link, even one to a directory, is a leaf here. */
  function Pruned(fs: Fs, p: string): (r: Fs)
    ensures forall q :: q in r ==> q in fs && r[q] == fs[q]
  {
    map q | q in fs && !(Under(q, p) && fs[q].Dir? && OnlyDirsBelow(fs, q)) :: fs[q]
  }

  /** The prune changes nothing outside `p`'s subtree, keeps every
      non-directory, and leaves no directory below `p` that could have been
      emptied: each remaining one still holds a non-directory. */
  lemma PrunedProperties(fs: Fs, p: string)
    ensures forall q :: q in fs && !Under(q, p) ==> q in Pruned(fs, p)
    ensures forall q :: q in fs && !fs[q].Dir? ==> q in Pruned(fs, p)
    ensures forall q :: q in Pruned(fs, p) && Under(q, p) && fs[q].Dir? ==>
              exists x :: x in Pruned(fs, p) && Under(x, q) && !fs[x].Dir?
  {
    var r := Pruned(fs, p);
    forall q | q in r && Under(q, p) && fs[q].Dir?
      ensures exists x :: x in r && Under(x, q) && !fs[x].Dir?
    {
      assert !OnlyDirsBelow(fs, q);
      var x :| x in fs && Under(x, q) && !fs[x].Dir?;
      assert x in r;
    }
  }

  /** The ancestor walk: remove `p`, then its dirname, and so on, stopping
      silently at the first `rmdir` that raises. */
  function RemoveUp(fs: Fs, faults: Faults, p: string): Fs
    decreases |p|, if p in fs then 1 else 0
  {
    if p == "" then fs
    else
      var res := OsRmdir(fs, faults, p);
      if !res.ok then fs else RemoveUp(res.fs, faults, Dirname(p))
  }

  /** `-e` on one path: prune, then walk up; a failure of the prune itself
      ends the walk before it starts. Only a directory is considered. */
  function RmdirEmptyOne(fs: Fs, faults: Faults, p: string): Fs {
    if !IsDir(fs, p) || Fault(Prune, p) in faults then fs
    else RemoveUp(Pruned(fs, p), faults, p)
  }

  function RmdirPaths(o: Options, faults: Faults, r: Run, paths: seq<string>): Run
    decreases |paths|
  {
    if paths == [] || r.done then r
    else if o.removeEmptyDirs then RmdirPaths(o, faults, r.(fs := RmdirEmptyOne(r.fs, faults, paths[0])), paths[1..])
    else
      var p := paths[0];
      RmdirPaths(o, faults, Try(r, o.force, Rmdir, p, OsRmdir(r.fs, faults, p), CannotRemoveDirectory(p)), paths[1..])
  }

  /** What `rmdir` does to a state. */
  function RmdirOutcome(o: Options, args: seq<string>, fs: Fs, faults: Faults): Run {
    RmdirPaths(o, faults, Start(fs), args)
  }

  method RemoveAncestors(fs0: Fs, faults: Faults, start: string) returns (fs: Fs)
    ensures fs == RemoveUp(fs0, faults, start)
  {
    fs := fs0;
    var path := start;
    while path != ""
      invariant RemoveUp(fs, faults, path) == RemoveUp(fs0, faults, start)
      decreases |path|, if path in fs then 1 else 0
    {
      var res := OsRmdir(fs, faults, path);
      if !res.ok {
        break;
      }
      fs := res.fs;
      path := Dirname(path);
    }
  }

  method RemoveDirectories(o: Options, args: seq<string>, fs0: Fs, faults: Faults)
    returns (status: int, fs: Fs, err: seq<Message>)
    ensures var r := RmdirOutcome(o, args, fs0, faults);
            status == r.status && fs == r.fs && err == r.err
  {
    status, fs, err := 0, fs0, [];
    ghost var tried: seq<Attempt> := [];
    var i := 0;
    while i < |args|
      invariant 0 <= i <= |args|
      invariant RmdirPaths(o, faults, Run(status, fs, err, tried, false), args[i..]) == RmdirOutcome(o, args, fs0, faults)
    {
      var path := args[i];
      assert args[i..][1..] == args[i + 1..];
      if !o.removeEmptyDirs {
        var res := OsRmdir(fs, faults, path);
        tried := tried + [Attempt(Rmdir, path, res.ok)];
        fs := res.fs;
        if !res.ok {
          status := EFAIL;
          if !o.force {
            err := err + [CannotRemoveDirectory(path)];
            return;
          }
        }
      } else if IsDir(fs, path) && Fault(Prune, path) !in faults {
        fs := RemoveAncestors(Pruned(fs, path), faults, path);
      }
      i := i + 1;
    }
  }

  /** `after` is `before` less some directories. */
  predicate RemovesOnlyDirs(before: Fs, after: Fs) {
    && (forall q :: q in after ==> q in before && after[q] == before[q])
    && (forall q :: q in before && !before[q].Dir? ==> q in after)
  }

  lemma {:induction false} RemoveUpOnlyDirs(fs: Fs, faults: Faults, p: string)
    ensures RemovesOnlyDirs(fs, RemoveUp(fs, faults, p))
    decreases |p|, if p in fs then 1 else 0
  {
    if p != "" {
      var res := OsRmdir(fs, faults, p);
      if res.ok {
        RemoveUpOnlyDirs(res.fs, faults, Dirname(p));
      }
    }
  }

  lemma {:induction false} RmdirPathsOnlyDirs(o: Options, faults: Faults, r: Run, paths: seq<string>)
    ensures RemovesOnlyDirs(r.fs, RmdirPaths(o, faults, r, paths).fs)
    decreases |paths|
  {
    if paths != [] && !r.done {
      var p := paths[0];
      if o.removeEmptyDirs {
        if IsDir(r.fs, p) && Fault(Prune, p) !in faults {
          PrunedProperties(r.fs, p);
          RemoveUpOnlyDirs(Pruned(r.fs, p), faults, p);
        }
        RmdirPathsOnlyDirs(o, faults, r.(fs := RmdirEmptyOne(r.fs, faults, p)), paths[1..]);
      } else {
        RmdirPathsOnlyDirs(o, faults, Try(r, o.force, Rmdir, p, OsRmdir(r.fs, faults, p), CannotRemoveDirectory(p)), paths[1..]);
      }
    }
  }

  /** `rmdir`, in either mode, removes directories only: every other entry
      survives unchanged and nothing is added. */
  lemma RmdirRemovesOnlyDirs(o: Options, args: seq<string>, fs: Fs, faults: Faults)
    ensures RemovesOnlyDirs(fs, RmdirOutcome(o, args, fs, faults).fs)
  {
    RmdirPathsOnlyDirs(o, faults, Start(fs), args);
  }

  lemma {:induction false} RmdirEmptyPathsQuiet(o: Options, faults: Faults, r: Run, paths: seq<string>)
    requires o.removeEmptyDirs
    ensures var r' := RmdirPaths(o, faults, r, paths);
            r'.status == r.status && r'.err == r.err && r'.done == r.done
    decreases |paths|
  {
    if paths != [] && !r.done {
      RmdirEmptyPathsQuiet(o, faults, r.(fs := RmdirEmptyOne(r.fs, faults, paths[0])), paths[1..]);
    }
  }

  /** `rmdir -e` always returns 0 and writes nothing. */
  lemma RmdirEmptyAlwaysSucceeds(o: Options, args: seq<string>, fs: Fs, faults: Faults)
    requires o.removeEmptyDirs
    ensures RmdirOutcome(o, args, fs, faults).status == 0 && RmdirOutcome(o, args, fs, faults).err == []
  {
    RmdirEmptyPathsQuiet(o, faults, Start(fs), args);
  }

  lemma {:induction false} RmdirPathsForced(o: Options, faults: Faults, r: Run, paths: seq<string>)
    requires o.force && ForcedRun(r)
    ensures ForcedRun(RmdirPaths(o, faults, r, paths))
    decreases |paths|
  {
    if paths != [] {
      var p := paths[0];
      if o.removeEmptyDirs {
        RmdirPathsForced(o, faults, r.(fs := RmdirEmptyOne(r.fs, faults, p)), paths[1..]);
      } else {
        TryForced(r, Rmdir, p, OsRmdir(r.fs, faults, p), CannotRemoveDirectory(p));
        RmdirPathsForced(o, faults, Try(r, o.force, Rmdir, p, OsRmdir(r.fs, faults, p), CannotRemoveDirectory(p)), paths[1..]);
      }
    }
  }

  lemma {:induction false} RmdirPathsStrict(o: Options, faults: Faults, r: Run, paths: seq<string>)
    requires !o.force && StrictRun(r)
    ensures StrictRun(RmdirPaths(o, faults, r, paths))
    decreases |paths|
  {
    if paths != [] && !r.done {
      var p := paths[0];
      if o.removeEmptyDirs {
        RmdirPathsStrict(o, faults, r.(fs := RmdirEmptyOne(r.fs, faults, p)), paths[1..]);
      } else {
        TryStrict(r, Rmdir, p, OsRmdir(r.fs, faults, p), CannotRemoveDirectory(p));
        RmdirPathsStrict(o, faults, Try(r, o.force, Rmdir, p, OsRmdir(r.fs, faults, p), CannotRemoveDirectory(p)), paths[1..]);
      }
    }
  }

  /** With `-f`, `rmdir` writes nothing and fails exactly when some removal
      raised. */
  lemma RmdirForced(o: Options, args: seq<string>, fs: Fs, faults: Faults)
    requires o.force
    ensures ForcedRun(RmdirOutcome(o, args, fs, faults))
  {
    RmdirPathsForced(o, faults, Start(fs), args);
  }

  /** Without `-f`, `rmdir` stops at the first directory it cannot remove. */
  lemma RmdirStrict(o: Options, args: seq<string>, fs: Fs, faults: Faults)
    requires !o.force
    ensures StrictRun(RmdirOutcome(o, args, fs, faults))
  {
    RmdirPathsStrict(o, faults, Start(fs), args);
  }
}
