/** `run_shell_command` and `main` of the older `shellutil.py`: the same
    force rule with its own messages, `rm` without a link branch, and `mv`
    and `cp` on exactly two arguments without globbing. */
module Legacy {
  import opened Text
  import opened FileSystem
  import opened Runs
  import RemoveTouch
  import Dirs
  import Versions

  /** The only options the older parser knows: `-f` and `-r`. */
  function LegacyOptions(force: bool, recursive: bool): Options {
    Options(force, recursive, true, false, false)
  }

  /** The texts the older command set writes. */
  function RenderLegacy(m: Message): string {
    match m
    case CannotFindFile(p) => "Can't find file " + p
    case CannotRemoveFile(p) => "Can't remove file " + p
    case CannotRemoveTree(p) => "Can't remove tree " + p
    case CannotMakeDirectory(p) => "Can't make directory " + p
    case CannotRemoveDirectory(p) => "Can't remove directory " + p
    case CannotCreateFile(p) => "Can't create file " + p
    case CannotTouchFile(p) => "Can't touch file " + p
    // `print`, not `printf`: the placeholder is written as it stands.
    case InvalidParameterFor(c, _) => "Invalid parameter {0} for " + c
    case CannotMove(s, d) => "Can't move " + s + " to " + d
    case CannotCopy(s, d) => "Can't copy " + s + " to " + d
    case UnknownCommand(n) => "Unknown command " + n
    case _ => Render(m)
  }

  // rm

  /** The call the older `rm` makes on one match: a file is removed, a
      directory is removed empty (or as a tree with `-r`), anything else is
      left alone. */
  function LegacyRmCall(o: Options, fs: Fs, file: string): Option<Call> {
    if IsFile(fs, file) then Some(Remove)
    else if IsDir(fs, file) then Some(if o.recursive then Rmtree else Rmdir)
    else None
  }

  /** `shutil.rmtree(file, ignore_errors=force)`: with force a failing
      removal never raises. */
  function LegacyRmRes(o: Options, fs: Fs, faults: Faults, file: string, call: Call): (r: Res)
    ensures call == Rmtree && o.force ==> r.ok
  {
    match call
    case Rmtree =>
      var res := OsRmtree(fs, faults, file);
      if o.force then Res(true, res.fs) else res
    case Rmdir => OsRmdir(fs, faults, file)
    case _ => OsRemove(fs, faults, file)
  }

  function LegacyRmFiles(o: Options, faults: Faults, r: Run, files: seq<string>): Run
    decreases |files|
  {
    if files == [] || r.done then r
    else
      var f := files[0];
      match LegacyRmCall(o, r.fs, f)
      case None => LegacyRmFiles(o, faults, r, files[1..])
      case Some(call) =>
        LegacyRmFiles(o, faults, Try(r, o.force, call, f, LegacyRmRes(o, r.fs, faults, f, call), RemoveTouch.RmMsg(o, f)), files[1..])
  }

  function LegacyRmPatterns(o: Options, glob: Glob, faults: Faults, r: Run, pats: seq<string>): Run
    decreases |pats|
  {
    if pats == [] || r.done then r
    else
      var files := glob(r.fs, pats[0]);
      if files == [] && !o.force then Abort(r, CannotFindFile(pats[0]))
      else LegacyRmPatterns(o, glob, faults, LegacyRmFiles(o, faults, r, files), pats[1..])
  }

  /** What the older `rm` does to a state. */
  function LegacyRmOutcome(o: Options, args: seq<string>, fs: Fs, glob: Glob, faults: Faults): Run {
    LegacyRmPatterns(o, glob, faults, Start(fs), args)
  }

  method LegacyRmEach(o: Options, faults: Faults, r0: Run, files: seq<string>) returns (r: Run)
    requires !r0.done
    ensures r == LegacyRmFiles(o, faults, r0, files)
  {
    r := r0;
    var j := 0;
    while j < |files|
      invariant 0 <= j <= |files|
      invariant LegacyRmFiles(o, faults, r, files[j..]) == LegacyRmFiles(o, faults, r0, files)
      decreases |files| - j, if r.done then 0 else 1
    {
      if r.done {
        return;
      }
      var file := files[j];
      assert files[j..][1..] == files[j + 1..];
      var call := LegacyRmCall(o, r.fs, file);
      if call.Some? {
        var res := LegacyRmRes(o, r.fs, faults, file, call.value);
        r := Try(r, o.force, call.value, file, res, RemoveTouch.RmMsg(o, file));
      }
      j := j + 1;
    }
  }

  method LegacyRm(o: Options, args: seq<string>, fs0: Fs, glob: Glob, faults: Faults)
    returns (status: int, fs: Fs, err: seq<Message>)
    ensures var r := LegacyRmOutcome(o, args, fs0, glob, faults);
            status == r.status && fs == r.fs && err == r.err
  {
    var r := Start(fs0);
    var i := 0;
    while i < |args|
      invariant 0 <= i <= |args|
      invariant LegacyRmPatterns(o, glob, faults, r, args[i..]) == LegacyRmOutcome(o, args, fs0, glob, faults)
      decreases |args| - i, if r.done then 0 else 1
    {
      if r.done {
        break;
      }
      var pattern := args[i];
      assert args[i..][1..] == args[i + 1..];
      var files := glob(r.fs, pattern);
      if files == [] && !o.force {
        r := Abort(r, CannotFindFile(pattern));
        break;
      }
      r := LegacyRmEach(o, faults, r, files);
      i := i + 1;
    }
    return r.status, r.fs, r.err;
  }

  lemma {:induction false} LegacyRmFilesForced(o: Options, faults: Faults, r: Run, files: seq<string>)
    requires o.force && ForcedRun(r)
    ensures ForcedRun(LegacyRmFiles(o, faults, r, files))
    decreases |files|
  {
    if files != [] {
      var f := files[0];
      match LegacyRmCall(o, r.fs, f)
      case None => LegacyRmFilesForced(o, faults, r, files[1..]);
      case Some(call) =>
        var res := LegacyRmRes(o, r.fs, faults, f, call);
        TryForced(r, call, f, res, RemoveTouch.RmMsg(o, f));
        LegacyRmFilesForced(o, faults, Try(r, o.force, call, f, res, RemoveTouch.RmMsg(o, f)), files[1..]);
    }
  }

  lemma {:induction false} LegacyRmFilesStrict(o: Options, faults: Faults, r: Run, files: seq<string>)
    requires !o.force && StrictRun(r)
    ensures StrictRun(LegacyRmFiles(o, faults, r, files))
    decreases |files|
  {
    if files != [] && !r.done {
      var f := files[0];
      match LegacyRmCall(o, r.fs, f)
      case None => LegacyRmFilesStrict(o, faults, r, files[1..]);
      case Some(call) =>
        var res := LegacyRmRes(o, r.fs, faults, f, call);
        TryStrict(r, call, f, res, RemoveTouch.RmMsg(o, f));
        LegacyRmFilesStrict(o, faults, Try(r, o.force, call, f, res, RemoveTouch.RmMsg(o, f)), files[1..]);
    }
  }

  lemma {:induction false} LegacyRmPatternsForced(o: Options, glob: Glob, faults: Faults, r: Run, pats: seq<string>)
    requires o.force && ForcedRun(r)
    ensures ForcedRun(LegacyRmPatterns(o, glob, faults, r, pats))
    decreases |pats|
  {
    if pats != [] {
      var files := glob(r.fs, pats[0]);
      LegacyRmFilesForced(o, faults, r, files);
      LegacyRmPatternsForced(o, glob, faults, LegacyRmFiles(o, faults, r, files), pats[1..]);
    }
  }

  lemma {:induction false} LegacyRmPatternsStrict(o: Options, glob: Glob, faults: Faults, r: Run, pats: seq<string>)
    requires !o.force && StrictRun(r)
    ensures StrictRun(LegacyRmPatterns(o, glob, faults, r, pats))
    decreases |pats|
  {
    if pats != [] && !r.done {
      var files := glob(r.fs, pats[0]);
      if files == [] {
        AbortStrict(r, CannotFindFile(pats[0]));
      } else {
        LegacyRmFilesStrict(o, faults, r, files);
        LegacyRmPatternsStrict(o, glob, faults, LegacyRmFiles(o, faults, r, files), pats[1..]);
      }
    }
  }

  /** With `-f`, the older `rm` writes nothing and fails exactly when some
      attempted removal raised. */
  lemma LegacyRmForced(o: Options, args: seq<string>, fs: Fs, glob: Glob, faults: Faults)
    requires o.force
    ensures ForcedRun(LegacyRmOutcome(o, args, fs, glob, faults))
  {
    LegacyRmPatternsForced(o, glob, faults, Start(fs), args);
  }

  /** Without `-f`, the older `rm` stops at the first pattern without
      matches or the first removal that raises, with one message. */
  lemma LegacyRmStrict(o: Options, args: seq<string>, fs: Fs, glob: Glob, faults: Faults)
    requires !o.force
    ensures StrictRun(LegacyRmOutcome(o, args, fs, glob, faults))
  {
    LegacyRmPatternsStrict(o, glob, faults, Start(fs), args);
  }

  /** Every tree removal a run records succeeded. */
  predicate TreeRemovalsOk(tried: seq<Attempt>) {
    forall i :: 0 <= i < |tried| && tried[i].call == Rmtree ==> tried[i].ok
  }

  lemma {:induction false} LegacyRmFilesTreesOk(o: Options, faults: Faults, r: Run, files: seq<string>)
    requires o.force && o.recursive && TreeRemovalsOk(r.tried)
    ensures TreeRemovalsOk(LegacyRmFiles(o, faults, r, files).tried)
    decreases |files|
  {
    if files != [] && !r.done {
      var f := files[0];
      match LegacyRmCall(o, r.fs, f)
      case None => LegacyRmFilesTreesOk(o, faults, r, files[1..]);
      case Some(call) =>
        var res := LegacyRmRes(o, r.fs, faults, f, call);
        var r1 := Try(r, o.force, call, f, res, RemoveTouch.RmMsg(o, f));
        assert forall i :: 0 <= i < |r.tried| ==> r1.tried[i] == r.tried[i];
        LegacyRmFilesTreesOk(o, faults, r1, files[1..]);
    }
  }

  lemma {:induction false} LegacyRmPatternsTreesOk(o: Options, glob: Glob, faults: Faults, r: Run, pats: seq<string>)
    requires o.force && o.recursive && TreeRemovalsOk(r.tried)
    ensures TreeRemovalsOk(LegacyRmPatterns(o, glob, faults, r, pats).tried)
    decreases |pats|
  {
    if pats != [] && !r.done {
      var files := glob(r.fs, pats[0]);
      LegacyRmFilesTreesOk(o, faults, r, files);
      LegacyRmPatternsTreesOk(o, glob, faults, LegacyRmFiles(o, faults, r, files), pats[1..]);
    }
  }

  /** With `-r -f`, a directory whose removal fails never counts as a
      failure: status 1 can only come from removing a file. */
  lemma LegacyRecursiveForceIgnoresTreeErrors(o: Options, args: seq<string>, fs: Fs, glob: Glob, faults: Faults)
    requires o.force && o.recursive
    ensures var r := LegacyRmOutcome(o, args, fs, glob, faults);
            TreeRemovalsOk(r.tried)
            && (r.status == EFAIL ==> exists i :: 0 <= i < |r.tried| && !r.tried[i].ok && r.tried[i].call == Remove)
  {
    LegacyRmPatternsTreesOk(o, glob, faults, Start(fs), args);
    LegacyRmForced(o, args, fs, glob, faults);
    var r := LegacyRmOutcome(o, args, fs, glob, faults);
    LegacyRmPatternsCalls(o, glob, faults, Start(fs), args);
    if r.status == EFAIL {
      var i :| 0 <= i < |r.tried| && !r.tried[i].ok;
      assert r.tried[i].call in {Remove, Rmtree};
    }
  }

  /** The calls the older recursive `rm` makes. */
  predicate RecursiveCalls(tried: seq<Attempt>) {
    forall i :: 0 <= i < |tried| ==> tried[i].call in {Remove, Rmtree}
  }

  lemma {:induction false} LegacyRmFilesCalls(o: Options, faults: Faults, r: Run, files: seq<string>)
    requires o.recursive && RecursiveCalls(r.tried)
    ensures RecursiveCalls(LegacyRmFiles(o, faults, r, files).tried)
    decreases |files|
  {
    if files != [] && !r.done {
      var f := files[0];
      match LegacyRmCall(o, r.fs, f)
      case None => LegacyRmFilesCalls(o, faults, r, files[1..]);
      case Some(call) =>
        var res := LegacyRmRes(o, r.fs, faults, f, call);
        var r1 := Try(r, o.force, call, f, res, RemoveTouch.RmMsg(o, f));
        assert forall i :: 0 <= i < |r.tried| ==> r1.tried[i] == r.tried[i];
        LegacyRmFilesCalls(o, faults, r1, files[1..]);
    }
  }

  lemma {:induction false} LegacyRmPatternsCalls(o: Options, glob: Glob, faults: Faults, r: Run, pats: seq<string>)
    requires o.recursive && RecursiveCalls(r.tried)
    ensures RecursiveCalls(LegacyRmPatterns(o, glob, faults, r, pats).tried)
    decreases |pats|
  {
    if pats != [] && !r.done {
      var files := glob(r.fs, pats[0]);
      LegacyRmFilesCalls(o, faults, r, files);
      LegacyRmPatternsCalls(o, glob, faults, LegacyRmFiles(o, faults, r, files), pats[1..]);
    }
  }

  /** Matches that are neither files nor directories are left alone, without
      an error. */
  lemma {:induction false} LegacyRmLeavesOthers(o: Options, faults: Faults, r: Run, files: seq<string>)
    requires forall k :: 0 <= k < |files| ==> !IsFile(r.fs, files[k]) && !IsDir(r.fs, files[k])
    ensures LegacyRmFiles(o, faults, r, files) == r
    decreases |files|
  {
    if files != [] && !r.done {
      assert !IsFile(r.fs, files[0]) && !IsDir(r.fs, files[0]);
      forall k | 0 <= k < |files[1..]| ensures !IsFile(r.fs, files[1..][k]) && !IsDir(r.fs, files[1..][k]) {
        assert files[1..][k] == files[k + 1];
      }
      LegacyRmLeavesOthers(o, faults, r, files[1..]);
    }
  }

  // mv and cp

  /** The older `mv`: exactly two arguments, one `shutil.move`. */
  function LegacyMvOutcome(o: Options, args: seq<string>, fs: Fs, faults: Faults): Run {
    if |args| != 2 then Abort(Start(fs), InvalidParameterFor("mv", args))
    else TryOnce(Start(fs), o.force, Move, args[0], OsMove(fs, faults, args[0], args[1]), CannotMove(args[0], args[1]))
  }

  /** The older `cp`: exactly two arguments, one `shutil.copy2`. */
  function LegacyCpOutcome(o: Options, args: seq<string>, fs: Fs, faults: Faults): Run {
    if |args| != 2 then Abort(Start(fs), InvalidParameterFor("cp", args))
    else TryOnce(Start(fs), o.force, Copy, args[0], OsCopy2(fs, faults, args[0], args[1]), CannotCopy(args[0], args[1]))
  }

  /** The wrong number of arguments gives 1 and the literal placeholder text;
      a failing move or copy gives 1 even with force, which only suppresses
      the message. */
  lemma LegacyMvCpContract(o: Options, args: seq<string>, fs: Fs, faults: Faults)
    ensures |args| != 2 ==> LegacyMvOutcome(o, args, fs, faults).status == EFAIL
                            && RenderLegacy(LegacyMvOutcome(o, args, fs, faults).err[0]) == "Invalid parameter {0} for mv"
    ensures |args| != 2 ==> LegacyCpOutcome(o, args, fs, faults).status == EFAIL
                            && RenderLegacy(LegacyCpOutcome(o, args, fs, faults).err[0]) == "Invalid parameter {0} for cp"
    ensures |args| == 2 ==> StopRun(LegacyMvOutcome(o, args, fs, faults), o.force)
                            && (LegacyMvOutcome(o, args, fs, faults).status == 0 <==> OsMove(fs, faults, args[0], args[1]).ok)
    ensures |args| == 2 ==> StopRun(LegacyCpOutcome(o, args, fs, faults), o.force)
                            && (LegacyCpOutcome(o, args, fs, faults).status == 0 <==> OsCopy2(fs, faults, args[0], args[1]).ok)
  {
    if |args| == 2 {
      TryOnceStop(Start(fs), o.force, Move, args[0], OsMove(fs, faults, args[0], args[1]), CannotMove(args[0], args[1]));
      TryOnceStop(Start(fs), o.force, Copy, args[0], OsCopy2(fs, faults, args[0], args[1]), CannotCopy(args[0], args[1]));
    }
  }

  // the dispatcher

  /** What one older command leaves: status, state, stderr and stdout.
      `HostDependent` stands for the branches that only print host data
      (`cwd`, `mydir`, `relpath`, `winreg`). */
  datatype Outcome = Outcome(status: int, fs: Fs, err: seq<Message>, out: string) | HostDependent(command: string)

  function FromRun(r: Run): Outcome {
    Outcome(r.status, r.fs, r.err, "")
  }

  /** `run_shell_command(cmd, options, args)`. */
  function RunShellCommand(cmd: string, force: bool, recursive: bool, args: seq<string>, fs: Fs,
                           glob: Glob, faults: Faults, mk: Dirs.MkOracle): Outcome
  {
    var o := LegacyOptions(force, recursive);
    if cmd == "rm" then FromRun(LegacyRmOutcome(o, args, fs, glob, faults))
    else if cmd == "mkdir" then FromRun(Dirs.MkdirOutcome(o, args, fs, mk))
    else if cmd == "rmdir" then FromRun(Dirs.RmdirOutcome(o, args, fs, faults))
    else if cmd == "mv" then FromRun(LegacyMvOutcome(o, args, fs, faults))
    else if cmd == "cp" then FromRun(LegacyCpOutcome(o, args, fs, faults))
    else if cmd in ["cwd", "mydir", "relpath", "winreg"] then HostDependent(cmd)
    else if cmd == "touch" then FromRun(RemoveTouch.TouchOutcome(o, args, fs, glob, faults))
    else if cmd == "cmpver" then
      var c := Versions.CmpVer(args, force);
      Outcome(c.status, fs, c.err, c.out)
    else Outcome(EINVAL, fs, [UnknownCommand(cmd)], "")
  }

  /** `main` after option parsing: no command at all gives 8. */
  function LegacyMain(force: bool, recursive: bool, positional: seq<string>, fs: Fs,
                      glob: Glob, faults: Faults, mk: Dirs.MkOracle): (r: Outcome)
    ensures positional == [] ==> r == Outcome(EINVAL, fs, [MissingCommand], "")
  {
    if positional == [] then Outcome(EINVAL, fs, [MissingCommand], "")
    else RunShellCommand(positional[0], force, recursive, positional[1..], fs, glob, faults, mk)
  }

  const KnownCommands: seq<string> := ["rm", "mkdir", "rmdir", "mv", "cp", "cwd", "mydir", "relpath", "touch", "cmpver", "winreg"]

  /** An unknown command writes one message and gives 8, changing nothing. */
  lemma LegacyUnknownCommand(cmd: string, force: bool, recursive: bool, args: seq<string>, fs: Fs,
                             glob: Glob, faults: Faults, mk: Dirs.MkOracle)
    requires cmd !in KnownCommands
    ensures RunShellCommand(cmd, force, recursive, args, fs, glob, faults, mk) == Outcome(EINVAL, fs, [UnknownCommand(cmd)], "")
    ensures RenderLegacy(UnknownCommand(cmd)) == "Unknown command " + cmd
  {
    assert cmd != "rm" && cmd != "mkdir" && cmd != "rmdir" && cmd != "mv" && cmd != "cp";
    assert cmd != "touch" && cmd != "cmpver";
    assert cmd !in ["cwd", "mydir", "relpath", "winreg"];
  }

  /** The older `mkdir` and `touch` follow the force rule: with `-f` they
      write nothing and fail exactly when some item failed; without it they
      stop at the first failure with one message. */
  lemma LegacyMkdirTouchForceRule(force: bool, args: seq<string>, fs: Fs, glob: Glob, faults: Faults, mk: Dirs.MkOracle)
    ensures force ==> ForcedRun(Dirs.MkdirOutcome(LegacyOptions(force, false), args, fs, mk))
    ensures force ==> ForcedRun(RemoveTouch.TouchOutcome(LegacyOptions(force, false), args, fs, glob, faults))
    ensures !force ==> StrictRun(Dirs.MkdirOutcome(LegacyOptions(force, false), args, fs, mk))
    ensures !force ==> StrictRun(RemoveTouch.TouchOutcome(LegacyOptions(force, false), args, fs, glob, faults))
  {
    var o := LegacyOptions(force, false);
    if force {
      Dirs.MkdirForced(o, args, fs, mk);
      RemoveTouch.TouchForced(o, args, fs, glob, faults);
    } else {
      Dirs.MkdirStrict(o, args, fs, mk);
      RemoveTouch.TouchStrict(o, args, fs, glob, faults);
    }
  }

  /** The older `mkdir` on a directory that exists succeeds and changes
      nothing. */
  lemma LegacyMkdirExisting(force: bool, recursive: bool, path: string, fs: Fs, glob: Glob, faults: Faults, mk: Dirs.MkOracle)
    requires IsDir(fs, path)
    ensures RunShellCommand("mkdir", force, recursive, [path], fs, glob, faults, mk) == Outcome(0, fs, [], "")
  {
    var o := LegacyOptions(force, recursive);
    Dirs.MkdirExisting(fs, mk, path);
    assert [path][1..] == [];
    var r1 := Try(Start(fs), o.force, Makedirs, path, Res(true, fs), CannotMakeDirectory(path));
    assert Dirs.MkdirOutcome(o, [path], fs, mk) == Dirs.MkdirPaths(o, mk, r1, []);
  }

  /** `cmpver` behaves as in the current command set. */
  lemma LegacyCmpVer(force: bool, recursive: bool, args: seq<string>, fs: Fs, glob: Glob, faults: Faults, mk: Dirs.MkOracle)
    ensures var c := Versions.CmpVer(args, force);
            RunShellCommand("cmpver", force, recursive, args, fs, glob, faults, mk) == Outcome(c.status, fs, c.err, c.out)
  {
  }
}
