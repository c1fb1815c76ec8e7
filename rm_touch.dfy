/** `ShellCmd.run__rm` and `ShellCmd.run__touch`: loops over patterns and their
    glob matches under the force rule. */
module RemoveTouch {
  import opened Text
  import opened FileSystem
  import opened Runs

  /** The call `rm` makes on one match: files and links are removed, a
      directory is removed empty (or as a tree with `-r`), anything else is
      removed as a file. */
  function RmCall(o: Options, fs: Fs, file: string): Call {
    if IsFile(fs, file) || IsLink(fs, file) then Remove
    else if IsDir(fs, file) then (if o.recursive then Rmtree else Rmdir)
    else Remove
  }

  function RmRes(o: Options, fs: Fs, faults: Faults, file: string): Res {
    match RmCall(o, fs, file)
    case Rmtree => OsRmtree(fs, faults, file)
    case Rmdir => OsRmdir(fs, faults, file)
    case _ => OsRemove(fs, faults, file)
  }

  function RmMsg(o: Options, file: string): Message {
    if o.recursive then CannotRemoveTree(file) else CannotRemoveFile(file)
  }

  function RmFiles(o: Options, faults: Faults, r: Run, files: seq<string>): Run
    decreases |files|
  {
    if files == [] || r.done then r
    else
      var f := files[0];
      RmFiles(o, faults, Try(r, o.force, RmCall(o, r.fs, f), f, RmRes(o, r.fs, faults, f), RmMsg(o, f)), files[1..])
  }

  function RmPatterns(o: Options, glob: Glob, faults: Faults, r: Run, pats: seq<string>): Run
    decreases |pats|
  {
    if pats == [] || r.done then r
    else
      var files := glob(r.fs, pats[0]);
      if files == [] && !o.force then Abort(r, CannotFindFile(pats[0]))
      else RmPatterns(o, glob, faults, RmFiles(o, faults, r, files), pats[1..])
  }

  /** What `rm` does to a state. */
  function RmOutcome(o: Options, args: seq<string>, fs: Fs, glob: Glob, faults: Faults): Run {
    RmPatterns(o, glob, faults, Start(fs), args)
  }

  method Rm(o: Options, args: seq<string>, fs0: Fs, glob: Glob, faults: Faults)
    returns (status: int, fs: Fs, err: seq<Message>)
    ensures var r := RmOutcome(o, args, fs0, glob, faults);
            status == r.status && fs == r.fs && err == r.err
  {
    status, fs, err := 0, fs0, [];
    ghost var tried: seq<Attempt> := [];
    var i := 0;
    while i < |args|
      invariant 0 <= i <= |args|
      invariant RmPatterns(o, glob, faults, Run(status, fs, err, tried, false), args[i..])
                == RmOutcome(o, args, fs0, glob, faults)
    {
      var pattern := args[i];
      assert args[i..][1..] == args[i + 1..];
      var files := glob(fs, pattern);
      if files == [] && !o.force {
        err := err + [CannotFindFile(pattern)];
        return EFAIL, fs, err;
      }
      var j := 0;
      while j < |files|
        invariant 0 <= j <= |files|
        invariant RmPatterns(o, glob, faults, RmFiles(o, faults, Run(status, fs, err, tried, false), files[j..]), args[i + 1..])
                  == RmOutcome(o, args, fs0, glob, faults)
      {
        var file := files[j];
        assert files[j..][1..] == files[j + 1..];
        var call := RmCall(o, fs, file);
        var res := RmRes(o, fs, faults, file);
        tried := tried + [Attempt(call, file, res.ok)];
        fs := res.fs;
        if !res.ok {
          status := EFAIL;
          if !o.force {
            err := err + [RmMsg(o, file)];
            return;
          }
        }
        j := j + 1;
      }
      i := i + 1;
    }
  }

  lemma {:induction false} RmFilesForced(o: Options, faults: Faults, r: Run, files: seq<string>)
    requires o.force && ForcedRun(r)
    ensures ForcedRun(RmFiles(o, faults, r, files))
    decreases |files|
  {
    if files != [] {
      var f := files[0];
      TryForced(r, RmCall(o, r.fs, f), f, RmRes(o, r.fs, faults, f), RmMsg(o, f));
      RmFilesForced(o, faults, Try(r, o.force, RmCall(o, r.fs, f), f, RmRes(o, r.fs, faults, f), RmMsg(o, f)), files[1..]);
    }
  }

  lemma {:induction false} RmFilesStrict(o: Options, faults: Faults, r: Run, files: seq<string>)
    requires !o.force && StrictRun(r)
    ensures StrictRun(RmFiles(o, faults, r, files))
    decreases |files|
  {
    if files != [] && !r.done {
      var f := files[0];
      TryStrict(r, RmCall(o, r.fs, f), f, RmRes(o, r.fs, faults, f), RmMsg(o, f));
      RmFilesStrict(o, faults, Try(r, o.force, RmCall(o, r.fs, f), f, RmRes(o, r.fs, faults, f), RmMsg(o, f)), files[1..]);
    }
  }

  lemma {:induction false} RmPatternsForced(o: Options, glob: Glob, faults: Faults, r: Run, pats: seq<string>)
    requires o.force && ForcedRun(r)
    ensures ForcedRun(RmPatterns(o, glob, faults, r, pats))
    decreases |pats|
  {
    if pats != [] {
      var files := glob(r.fs, pats[0]);
      RmFilesForced(o, faults, r, files);
      RmPatternsForced(o, glob, faults, RmFiles(o, faults, r, files), pats[1..]);
    }
  }

  lemma {:induction false} RmPatternsStrict(o: Options, glob: Glob, faults: Faults, r: Run, pats: seq<string>)
    requires !o.force && StrictRun(r)
    ensures StrictRun(RmPatterns(o, glob, faults, r, pats))
    decreases |pats|
  {
    if pats != [] && !r.done {
      var files := glob(r.fs, pats[0]);
      if files != [] {
        RmFilesStrict(o, faults, r, files);
        RmPatternsStrict(o, glob, faults, RmFiles(o, faults, r, files), pats[1..]);
      }
    }
  }

  /** With `-f`, `rm` writes nothing, visits every match, and fails exactly
      when some removal raised. */
  lemma RmForced(o: Options, args: seq<string>, fs: Fs, glob: Glob, faults: Faults)
    requires o.force
    ensures ForcedRun(RmOutcome(o, args, fs, glob, faults))
  {
    RmPatternsForced(o, glob, faults, Start(fs), args);
  }

  /** Without `-f`, `rm` stops at the first missing pattern or failed removal,
      writing exactly one message, and attempts nothing after it. */
  lemma RmStrict(o: Options, args: seq<string>, fs: Fs, glob: Glob, faults: Faults)
    requires !o.force
    ensures StrictRun(RmOutcome(o, args, fs, glob, faults))
  {
    RmPatternsStrict(o, glob, faults, Start(fs), args);
  }

  /** `rm -f` on patterns that match nothing: status 0, nothing written,
      nothing changed. */
  lemma {:induction false} RmForceNothingMatches(o: Options, args: seq<string>, fs: Fs, glob: Glob, faults: Faults)
    requires o.force
    requires forall k :: 0 <= k < |args| ==> glob(fs, args[k]) == []
    ensures RmOutcome(o, args, fs, glob, faults) == Start(fs)
  {
    var k := 0;
    while k < |args|
      invariant 0 <= k <= |args|
      invariant RmPatterns(o, glob, faults, Start(fs), args[k..]) == RmOutcome(o, args, fs, glob, faults)
    {
      assert args[k..][1..] == args[k + 1..];
      k := k + 1;
    }
    assert args[k..] == [];
  }

  /** `rm` without `-f` on a first pattern that matches nothing: status 1,
      one "can not find" message naming the pattern, nothing changed. */
  lemma RmMissingFails(o: Options, args: seq<string>, fs: Fs, glob: Glob, faults: Faults)
    requires !o.force && |args| > 0 && glob(fs, args[0]) == []
    ensures RmOutcome(o, args, fs, glob, faults) == Run(EFAIL, fs, [CannotFindFile(args[0])], [], true)
  {
  }

  function TouchFiles(o: Options, faults: Faults, r: Run, files: seq<string>): Run
    decreases |files|
  {
    if files == [] || r.done then r
    else
      var f := files[0];
      TouchFiles(o, faults, Try(r, o.force, Utime, f, OsUtime(r.fs, faults, f), CannotTouchFile(f)), files[1..])
  }

  /** A pattern without matches names a file to create. */
  function TouchCreate(o: Options, faults: Faults, r: Run, pattern: string, files: seq<string>): Run {
    if files == [] then Try(r, o.force, Create, pattern, OsCreate(r.fs, faults, pattern), CannotCreateFile(pattern))
    else r
  }

  function TouchPatterns(o: Options, glob: Glob, faults: Faults, r: Run, pats: seq<string>): Run
    decreases |pats|
  {
    if pats == [] || r.done then r
    else
      var files := glob(r.fs, pats[0]);
      TouchPatterns(o, glob, faults, TouchFiles(o, faults, TouchCreate(o, faults, r, pats[0], files), files), pats[1..])
  }

  /** What `touch` does to a state. */
  function TouchOutcome(o: Options, args: seq<string>, fs: Fs, glob: Glob, faults: Faults): Run {
    TouchPatterns(o, glob, faults, Start(fs), args)
  }

  method Touch(o: Options, args: seq<string>, fs0: Fs, glob: Glob, faults: Faults)
    returns (status: int, fs: Fs, err: seq<Message>)
    ensures var r := TouchOutcome(o, args, fs0, glob, faults);
            status == r.status && fs == r.fs && err == r.err
  {
    status, fs, err := 0, fs0, [];
    ghost var tried: seq<Attempt> := [];
    var i := 0;
    while i < |args|
      invariant 0 <= i <= |args|
      invariant TouchPatterns(o, glob, faults, Run(status, fs, err, tried, false), args[i..])
                == TouchOutcome(o, args, fs0, glob, faults)
    {
      var pattern := args[i];
      assert args[i..][1..] == args[i + 1..];
      var files := glob(fs, pattern);
      if files == [] {
        var res := OsCreate(fs, faults, pattern);
        tried := tried + [Attempt(Create, pattern, res.ok)];
        fs := res.fs;
        if !res.ok {
          status := EFAIL;
          if !o.force {
            err := err + [CannotCreateFile(pattern)];
            return;
          }
        }
      }
      var j := 0;
      while j < |files|
        invariant 0 <= j <= |files|
        invariant TouchPatterns(o, glob, faults, TouchFiles(o, faults, Run(status, fs, err, tried, false), files[j..]), args[i + 1..])
                  == TouchOutcome(o, args, fs0, glob, faults)
      {
        var file := files[j];
        assert files[j..][1..] == files[j + 1..];
        var res := OsUtime(fs, faults, file);
        tried := tried + [Attempt(Utime, file, res.ok)];
        if !res.ok {
          status := EFAIL;
          if !o.force {
            err := err + [CannotTouchFile(file)];
            return;
          }
        }
        j := j + 1;
      }
      i := i + 1;
    }
  }

  lemma {:induction false} TouchFilesForced(o: Options, faults: Faults, r: Run, files: seq<string>)
    requires o.force && ForcedRun(r)
    ensures ForcedRun(TouchFiles(o, faults, r, files))
    decreases |files|
  {
    if files != [] {
      var f := files[0];
      TryForced(r, Utime, f, OsUtime(r.fs, faults, f), CannotTouchFile(f));
      TouchFilesForced(o, faults, Try(r, o.force, Utime, f, OsUtime(r.fs, faults, f), CannotTouchFile(f)), files[1..]);
    }
  }

  lemma {:induction false} TouchFilesStrict(o: Options, faults: Faults, r: Run, files: seq<string>)
    requires !o.force && StrictRun(r)
    ensures StrictRun(TouchFiles(o, faults, r, files))
    decreases |files|
  {
    if files != [] && !r.done {
      var f := files[0];
      TryStrict(r, Utime, f, OsUtime(r.fs, faults, f), CannotTouchFile(f));
      TouchFilesStrict(o, faults, Try(r, o.force, Utime, f, OsUtime(r.fs, faults, f), CannotTouchFile(f)), files[1..]);
    }
  }

  lemma {:induction false} TouchPatternsForced(o: Options, glob: Glob, faults: Faults, r: Run, pats: seq<string>)
    requires o.force && ForcedRun(r)
    ensures ForcedRun(TouchPatterns(o, glob, faults, r, pats))
    decreases |pats|
  {
    if pats != [] {
      var files := glob(r.fs, pats[0]);
      if files == [] {
        TryForced(r, Create, pats[0], OsCreate(r.fs, faults, pats[0]), CannotCreateFile(pats[0]));
      }
      var r1 := TouchCreate(o, faults, r, pats[0], files);
      TouchFilesForced(o, faults, r1, files);
      TouchPatternsForced(o, glob, faults, TouchFiles(o, faults, r1, files), pats[1..]);
    }
  }

  lemma {:induction false} TouchPatternsStrict(o: Options, glob: Glob, faults: Faults, r: Run, pats: seq<string>)
    requires !o.force && StrictRun(r)
    ensures StrictRun(TouchPatterns(o, glob, faults, r, pats))
    decreases |pats|
  {
    if pats != [] && !r.done {
      var files := glob(r.fs, pats[0]);
      if files == [] {
        TryStrict(r, Create, pats[0], OsCreate(r.fs, faults, pats[0]), CannotCreateFile(pats[0]));
      }
      var r1 := TouchCreate(o, faults, r, pats[0], files);
      TouchFilesStrict(o, faults, r1, files);
      TouchPatternsStrict(o, glob, faults, TouchFiles(o, faults, r1, files), pats[1..]);
    }
  }

  /** With `-f`, `touch` writes nothing and fails exactly when some create or
      utime raised. */
  lemma TouchForced(o: Options, args: seq<string>, fs: Fs, glob: Glob, faults: Faults)
    requires o.force
    ensures ForcedRun(TouchOutcome(o, args, fs, glob, faults))
  {
    TouchPatternsForced(o, glob, faults, Start(fs), args);
  }

  /** Without `-f`, `touch` stops at the first failure with one message. */
  lemma TouchStrict(o: Options, args: seq<string>, fs: Fs, glob: Glob, faults: Faults)
    requires !o.force
    ensures StrictRun(TouchOutcome(o, args, fs, glob, faults))
  {
    TouchPatternsStrict(o, glob, faults, Start(fs), args);
  }

  /** A pattern that matches nothing, in an existing directory, is created
      as an empty file. */
  lemma TouchCreatesMissing(o: Options, p: string, fs: Fs, glob: Glob, faults: Faults)
    requires glob(fs, p) == [] && Fault(Create, p) !in faults && p !in fs && ParentExists(fs, p)
    ensures var r := TouchOutcome(o, [p], fs, glob, faults);
            r.status == 0 && r.err == [] && r.fs == fs[p := File]
  {
    var r0 := Start(fs);
    assert OsCreate(fs, faults, p) == Res(true, fs[p := File]);
    var r1 := TouchCreate(o, faults, r0, p, []);
    assert r1.status == 0 && r1.err == [] && r1.fs == fs[p := File];
    assert TouchFiles(o, faults, r1, []) == r1;
    assert [p][1..] == [];
    assert TouchPatterns(o, glob, faults, r0, [p]) == TouchPatterns(o, glob, faults, r1, []);
  }

  /** `os.utime` follows a link, so touching a dangling link raises. */
  lemma UtimeDanglingLinkFails(fs: Fs, faults: Faults)
    requires fs == map["l" := Link("gone", false)]
    ensures OsUtime(fs, faults, "l") == Res(false, fs)
  {
    assert "gone" != "l" by { assert |"gone"| != |"l"|; }
  }

  /** `open` follows a link, so creating through a dangling link makes
      its target and keeps the link. */
  lemma CreateThroughDanglingLink(fs: Fs, faults: Faults)
    requires fs == map["l" := Link("t", false)] && Fault(Create, "l") !in faults
    ensures OsCreate(fs, faults, "l") == Res(true, fs["t" := File])
  {
    assert "t" != "l";
    assert Resolve(fs, "l") == "t";
    assert Dirname("t") == "";
  }
}
