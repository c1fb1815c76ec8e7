/** `ShellCmd.run__mv`, `ShellCmd.run__cp` and `ShellCmd.run__mklink`: the
    matches of every pattern but the last are pooled, checked against the
    destination, then moved or copied one by one until the first failure. */
module Transfer {
  import opened Text
  import opened FileSystem
  import opened Runs

  /** The matches of all patterns, in order, taken on the state before any
      move or copy. */
  function Pool(glob: Glob, fs: Fs, pats: seq<string>): seq<string>
    decreases |pats|
  {
    if pats == [] then [] else Pool(glob, fs, pats[..|pats| - 1]) + glob(fs, pats[|pats| - 1])
  }

  method PoolMatches(glob: Glob, fs: Fs, pats: seq<string>) returns (files: seq<string>)
    ensures files == Pool(glob, fs, pats)
  {
    files := [];
    var i := 0;
    while i < |pats|
      invariant 0 <= i <= |pats|
      invariant files == Pool(glob, fs, pats[..i])
    {
      assert pats[..i + 1][..i] == pats[..i];
      files := files + glob(fs, pats[i]);
      i := i + 1;
    }
    assert pats[..|pats|] == pats;
  }

  /** The checks made before anything is moved or copied: more than one match
      needs a directory destination, even with force; no match at all is an
      error without force. `Some` carries the message of the early return. */
  function PreCheck(o: Options, fs: Fs, files: seq<string>, dst: string, lastPattern: string): Option<Message> {
    if |files| > 1 && !IsDir(fs, dst) then Some(NotADirectory(dst))
    else if files == [] && !o.force then Some(CannotFindFile(lastPattern))
    else None
  }

  // mv

  function MoveFiles(o: Options, faults: Faults, r: Run, files: seq<string>, dst: string): Run
    decreases |files|
  {
    if files == [] || r.done then r
    else
      var f := files[0];
      MoveFiles(o, faults, TryOnce(r, o.force, Move, f, OsMove(r.fs, faults, f, dst), CannotMove(f, dst)), files[1..], dst)
  }

  /** What `mv` does to a state. */
  function MvOutcome(o: Options, args: seq<string>, fs: Fs, glob: Glob, faults: Faults): Run {
    if |args| < 2 then Abort(Start(fs), InvalidParameterFor("mv", args))
    else
      var dst := args[|args| - 1];
      var files := Pool(glob, fs, args[..|args| - 1]);
      match PreCheck(o, fs, files, dst, args[|args| - 2])
      case Some(m) => Abort(Start(fs), m)
      case None => MoveFiles(o, faults, Start(fs), files, dst)
  }

  method MoveEach(o: Options, faults: Faults, fs0: Fs, files: seq<string>, dst: string)
    returns (status: int, fs: Fs, err: seq<Message>)
    ensures var r := MoveFiles(o, faults, Start(fs0), files, dst);
            status == r.status && fs == r.fs && err == r.err
  {
    status, fs, err := 0, fs0, [];
    ghost var tried: seq<Attempt> := [];
    var j := 0;
    while j < |files|
      invariant 0 <= j <= |files|
      invariant MoveFiles(o, faults, Run(status, fs, err, tried, false), files[j..], dst) == MoveFiles(o, faults, Start(fs0), files, dst)
    {
      var file := files[j];
      assert files[j..][1..] == files[j + 1..];
      var res := OsMove(fs, faults, file, dst);
      tried := tried + [Attempt(Move, file, res.ok)];
      fs := res.fs;
      if !res.ok {
        status := EFAIL;
        if !o.force {
          err := err + [CannotMove(file, dst)];
        }
        return;
      }
      j := j + 1;
    }
  }

  method Mv(o: Options, args: seq<string>, fs0: Fs, glob: Glob, faults: Faults)
    returns (status: int, fs: Fs, err: seq<Message>)
    ensures var r := MvOutcome(o, args, fs0, glob, faults);
            status == r.status && fs == r.fs && err == r.err
  {
    fs := fs0;
    if |args| < 2 {
      return EFAIL, fs, [InvalidParameterFor("mv", args)];
    }
    var dst := args[|args| - 1];
    var files := PoolMatches(glob, fs, args[..|args| - 1]);
    if |files| > 1 && !IsDir(fs, dst) {
      return EFAIL, fs, [NotADirectory(dst)];
    }
    if files == [] && !o.force {
      return EFAIL, fs, [CannotFindFile(args[|args| - 2])];
    }
    status, fs, err := MoveEach(o, faults, fs, files, dst);
  }

  lemma {:induction false} MoveFilesStop(o: Options, faults: Faults, r: Run, files: seq<string>, dst: string)
    requires StopRun(r, o.force)
    ensures StopRun(MoveFiles(o, faults, r, files, dst), o.force)
    decreases |files|
  {
    if files != [] && !r.done {
      var f := files[0];
      TryOnceStop(r, o.force, Move, f, OsMove(r.fs, faults, f, dst), CannotMove(f, dst));
      MoveFilesStop(o, faults, TryOnce(r, o.force, Move, f, OsMove(r.fs, faults, f, dst), CannotMove(f, dst)), files[1..], dst);
    }
  }

  /** Once past its checks, `mv` stops at the first move that raises and
      returns EFAIL, with or without force; force only suppresses the
      message. */
  lemma MvStopsAtFirstFailure(o: Options, args: seq<string>, fs: Fs, glob: Glob, faults: Faults)
    requires |args| >= 2
    requires PreCheck(o, fs, Pool(glob, fs, args[..|args| - 1]), args[|args| - 1], args[|args| - 2]) == None
    ensures StopRun(MvOutcome(o, args, fs, glob, faults), o.force)
  {
    MoveFilesStop(o, faults, Start(fs), Pool(glob, fs, args[..|args| - 1]), args[|args| - 1]);
  }

  /** Several matches and a destination that is not a directory: EFAIL and one
      message before anything moves, even with force. */
  lemma MvNeedsDirectory(o: Options, args: seq<string>, fs: Fs, glob: Glob, faults: Faults)
    requires |args| >= 2 && |Pool(glob, fs, args[..|args| - 1])| > 1 && !IsDir(fs, args[|args| - 1])
    ensures var r := MvOutcome(o, args, fs, glob, faults);
            r.status == EFAIL && r.fs == fs && r.err == [NotADirectory(args[|args| - 1])] && r.tried == []
  {
  }

  /** Every destination a move into `dst` uses starts with `dst`. */
  lemma DestinationStartsWith(fs: Fs, src: string, dst: string)
    ensures StartsWith(Destination(fs, src, dst), dst)
    ensures StartsWith(Join(dst, Basename(src)), dst)
  {
    var b := Basename(src);
    assert !StartsWith(b, "/") by {
      if |b| > 0 { assert b[0] != '/'; }
    }
    var j := Join(dst, b);
    if dst == [] || EndsWith(dst, "/") {
      assert j[..|dst|] == dst;
    } else {
      assert j == dst + "/" + b;
      assert j[..|dst|] == dst;
    }
  }

  /** `q` lies in the tree of none of `files`. */
  predicate OutsideAll(q: string, files: seq<string>) {
    forall k :: 0 <= k < |files| ==> !InTree(q, files[k])
  }

  lemma {:induction false} MoveFilesFrame(o: Options, faults: Faults, r: Run, files: seq<string>, dst: string, q: string)
    requires q in r.fs && !StartsWith(q, dst)
    requires OutsideAll(q, files)
    ensures var r' := MoveFiles(o, faults, r, files, dst);
            q in r'.fs && r'.fs[q] == r.fs[q]
    decreases |files|
  {
    if files != [] && !r.done {
      var f := files[0];
      var to := Destination(r.fs, f, dst);
      DestinationStartsWith(r.fs, f, dst);
      TreeStartsWith(q, to, dst);
      assert !InTree(q, f);
      MoveFrame(r.fs, faults, f, dst, q);
      var r1 := TryOnce(r, o.force, Move, f, OsMove(r.fs, faults, f, dst), CannotMove(f, dst));
      assert OutsideAll(q, files[1..]) by {
        forall k | 0 <= k < |files[1..]| ensures !InTree(q, files[1..][k]) {
          assert files[1..][k] == files[k + 1];
        }
      }
      MoveFilesFrame(o, faults, r1, files[1..], dst, q);
    }
  }

  /** `mv` leaves every entry alone that lies in the tree of no match and
      does not begin with the destination. */
  lemma MvFrame(o: Options, args: seq<string>, fs: Fs, glob: Glob, faults: Faults, q: string)
    requires |args| >= 2 && q in fs && !StartsWith(q, args[|args| - 1])
    requires OutsideAll(q, Pool(glob, fs, args[..|args| - 1]))
    ensures q in MvOutcome(o, args, fs, glob, faults).fs && MvOutcome(o, args, fs, glob, faults).fs[q] == fs[q]
  {
    var files := Pool(glob, fs, args[..|args| - 1]);
    if PreCheck(o, fs, files, args[|args| - 1], args[|args| - 2]) == None {
      MoveFilesFrame(o, faults, Start(fs), files, args[|args| - 1], q);
    }
  }

  /** A single move that succeeds and is not a rename in place carries the
      whole tree of the source to the destination: each entry reappears at
      its rebased path with its kind, and nothing of the old tree is left
      outside the new one. The only other new entries are the directories
      that the copy fallback of a directory makes above a missing
      destination directory. */
  lemma MvMovesTree(o: Options, src: string, dst: string, fs: Fs, glob: Glob, faults: Faults)
    requires glob(fs, src) == [src]
    requires MvOutcome(o, [src, dst], fs, glob, faults).status == 0
    ensures src in fs
    ensures var to := Destination(fs, src, dst);
            var r := MvOutcome(o, [src, dst], fs, glob, faults);
            to != src && !(IsDir(fs, dst) && dst == src) ==>
              && (forall q :: q in fs && InTree(q, src) ==> Rebase(q, src, to) in r.fs && r.fs[Rebase(q, src, to)] == fs[q])
              && (forall q :: q in r.fs && !InTree(q, to) ==>
                    (q in fs && !InTree(q, src)) || (q !in fs && q in Chain(to) && r.fs[q] == Dir && !ParentExists(fs, to)))
              && (!ParentExists(fs, to) ==> fs[src].Dir? && ChainOpen(fs, to))
  {
    var a := [src, dst];
    assert a[..1] == [src] && a[|a| - 1] == dst && a[|a| - 2] == src;
    assert Pool(glob, fs, [src]) == [src] by {
      assert [src][..0] == [];
    }
    assert PreCheck(o, fs, [src], dst, src) == None;
    var res := OsMove(fs, faults, src, dst);
    var r1 := TryOnce(Start(fs), o.force, Move, src, res, CannotMove(src, dst));
    assert [src][1..] == [];
    assert MoveFiles(o, faults, Start(fs), [src], dst) == MoveFiles(o, faults, r1, [], dst);
    assert MvOutcome(o, a, fs, glob, faults) == r1;
    assert res.ok;
    var to := Destination(fs, src, dst);
    if to != src && !(IsDir(fs, dst) && dst == src) {
      MoveCarriesTree(fs, faults, src, dst);
    }
  }

  /** A directory cannot be moved into a directory of its own tree: the move
      raises and nothing changes. */
  lemma MoveIntoItselfFails(fs: Fs, faults: Faults, src: string, dst: string)
    requires src in fs && fs[src].Dir? && IsDir(fs, dst) && Under(dst, src)
    ensures OsMove(fs, faults, src, dst) == Res(false, fs)
  {
    var to := Destination(fs, src, dst);
    DestinationStartsWith(fs, src, dst);
    assert StartsWith(dst, DirPrefix(src));
    StartsWithTrans(to, dst, DirPrefix(src));
    assert |to| >= |dst|;
    assert Under(to, src);
    assert dst != src;
  }

  lemma ExamplePaths()
    ensures Basename("d") == "d" && Dirname("e/d") == "e"
  {
    assert LastSlash("d") == -1;
    assert "e/d"[..2] == "e/";
    assert LastSlash("e/d") == 1;
    assert "e/"[..1] == "e";
    assert RStripSlash("e/") == "e";
  }

  lemma ExamplePrefixes()
    ensures DirPrefix("d") == "d/" && DirPrefix("e/d") == "e/d/"
  {
    assert !EndsWith("d", "/") && !EndsWith("e/d", "/");
  }

  lemma ExampleTrees()
    ensures !Under("e/d", "d") && InTree("d/x", "d") && Rebase("d/x", "d", "e/d") == "e/d/x"
    ensures !InTree("d", "e/d") && !InTree("d/x", "e/d")
  {
    ExamplePrefixes();
    assert "e/d"[..2] == "e/";
    assert "d/x"[..2] == "d/";
    assert "d/x"[2..] == "x";
    assert "e/d/" + "x" == "e/d/x";
  }

  /** `mv d e` with `d/x` a file and `e` a directory: the file ends up at
      `e/d/x` and nothing is left at `d` or `d/x`. */
  lemma MoveExample(fs: Fs)
    requires fs == map["d" := Dir, "d/x" := File, "e" := Dir]
    ensures var r := OsMove(fs, {}, "d", "e");
            r.ok && "e/d/x" in r.fs && r.fs["e/d/x"] == File && "e/d" in r.fs && r.fs["e/d"] == Dir
            && "d" !in r.fs && "d/x" !in r.fs
  {
    MoveExampleEntries(fs);
    MoveExampleRelocates(fs);
    ExampleTrees();
    var r := Relocate(fs, "d", "e/d");
    assert Rebase("d", "d", "e/d") == "e/d";
    assert "e/d/x" in r && r["e/d/x"] == File;
    assert "e/d" in r && r["e/d"] == Dir;
    assert "d" !in r && "d/x" !in r;
  }

  lemma MoveExampleEntries(fs: Fs)
    requires fs == map["d" := Dir, "d/x" := File, "e" := Dir]
    ensures "d" in fs && fs["d"] == Dir && "d/x" in fs && fs["d/x"] == File
  {
    assert "d" != "d/x" && "d/x" != "e" by {
      assert |"d"| != |"d/x"| && |"d/x"| != |"e"|;
    }
    assert "d" != "e" by {
      assert "d"[0] != "e"[0];
    }
  }

  lemma MoveExampleRelocates(fs: Fs)
    requires fs == map["d" := Dir, "d/x" := File, "e" := Dir]
    ensures OsMove(fs, {}, "d", "e") == Res(true, Relocate(fs, "d", "e/d"))
  {
    ExamplePaths();
    ExampleTrees();
    assert Destination(fs, "d", "e") == "e/d";
    assert !MoveRaises(fs, "d", "e");
  }

  lemma FallbackPaths()
    ensures Dirname("a/b") == "a" && Dirname("a") == "" && Chain("a/b") == ["a/b", "a", ""]
    ensures DirPrefix("d") == "d/" && DirPrefix("a/b") == "a/b/"
    ensures !InTree("a/b", "d") && InTree("d/x", "d") && Rebase("d/x", "d", "a/b") == "a/b/x"
    ensures !InTree("d", "a/b") && !InTree("d/x", "a/b")
  {
    assert "a/b"[..2] == "a/";
    assert LastSlash("a/b") == 1;
    assert "a/"[..1] == "a";
    assert RStripSlash("a/") == "a";
    assert LastSlash("a") == -1;
    assert LastSlash("") == -1;
    assert !EndsWith("d", "/") && !EndsWith("a/b", "/");
    assert "d/x"[..2] == "d/";
    assert "d/x"[2..] == "x";
    assert "a/b/" + "x" == "a/b/x";
    assert "a/b"[0] != "d/"[0];
  }

  lemma FallbackEntries(fs: Fs)
    requires fs == map["d" := Dir, "d/x" := File]
    ensures "d" in fs && fs["d"] == Dir && "d/x" in fs && fs["d/x"] == File
    ensures "a/b" !in fs && "a" !in fs && "" !in fs && "a/b/x" !in fs
  {
    assert "d" != "d/x" by { assert |"d"| != |"d/x"|; }
    assert "a"[0] != "d"[0];
  }

  lemma FallbackOpen(fs: Fs)
    requires fs == map["d" := Dir, "d/x" := File]
    ensures Destination(fs, "d", "a/b") == "a/b" && !ParentExists(fs, "a/b")
    ensures ChainOpen(fs, "a/b") && TreeCopyable(fs, "d") && !MoveRaises(fs, "d", "a/b")
  {
    FallbackPaths();
    FallbackEntries(fs);
  }

  /** `mv d a/b` with a file `d/x` and no `a`: `os.rename` raises, and the
      copy fallback of `shutil.move` makes `a`, copies the tree to `a/b`
      and removes `d`. */
  lemma MoveIntoMissingParent(fs: Fs)
    requires fs == map["d" := Dir, "d/x" := File]
    ensures var r := OsMove(fs, {}, "d", "a/b");
            && r.ok && "a" in r.fs && r.fs["a"] == Dir && "a/b" in r.fs && r.fs["a/b"] == Dir
            && "a/b/x" in r.fs && r.fs["a/b/x"] == File && "d" !in r.fs && "d/x" !in r.fs
  {
    FallbackPaths();
    FallbackEntries(fs);
    FallbackOpen(fs);
    var r := OsMove(fs, {}, "d", "a/b");
    assert r.fs == MissingDirs(fs, "a/b") + Relocate(fs, "d", "a/b");
    assert "a" in MissingDirs(fs, "a/b");
    assert Rebase("d", "d", "a/b") == "a/b";
  }

  lemma DanglingNames()
    ensures Basename("f") == "f" && Join("e", "f") == "e/f" && Dirname("e/f") == "e"
  {
    assert LastSlash("f") == -1;
    assert !EndsWith("e", "/");
    assert "e/f"[..2] == "e/";
    assert LastSlash("e/f") == 1;
    assert "e/"[..1] == "e";
    assert RStripSlash("e/") == "e";
  }

  lemma DanglingTrees()
    ensures DirPrefix("f") == "f/" && !InTree("e/f", "f") && InTree("f", "f") && !InTree("f", "e/f")
  {
    assert !EndsWith("f", "/");
    assert "e/f"[0] != "f/"[0];
    assert |"f"| < |"e/f"|;
  }

  lemma DanglingPaths()
    ensures Basename("f") == "f" && Join("e", "f") == "e/f" && Dirname("e/f") == "e"
    ensures DirPrefix("f") == "f/" && !InTree("e/f", "f") && InTree("f", "f") && Rebase("f", "f", "e/f") == "e/f"
    ensures !InTree("f", "e/f")
  {
    DanglingNames();
    DanglingTrees();
  }

  lemma DanglingEntries(fs: Fs)
    requires fs == map["f" := File, "e" := Dir, "e/f" := Link("gone", false)]
    ensures "f" in fs && fs["f"] == File && "e" in fs && fs["e"] == Dir
    ensures "e/f" in fs && fs["e/f"] == Link("gone", false) && "gone" !in fs
  {
    assert "f" != "e" && "gone"[0] != "f"[0] && "gone"[0] != "e"[0];
    assert |"gone"| != |"e/f"| && |"f"| != |"e/f"|;
  }

  /** `mv f e` where `e/f` is a dangling link: `os.path.exists` is false
      there, so the rename replaces the link with the file. */
  lemma MoveOverDanglingLink(fs: Fs)
    requires fs == map["f" := File, "e" := Dir, "e/f" := Link("gone", false)]
    ensures var r := OsMove(fs, {}, "f", "e");
            r.ok && "e/f" in r.fs && r.fs["e/f"] == File && "f" !in r.fs
  {
    DanglingPaths();
    DanglingEntries(fs);
    assert Destination(fs, "f", "e") == "e/f";
    assert !Exists(fs, "e/f") && ParentExists(fs, "e/f");
    assert !MoveRaises(fs, "f", "e");
  }

  lemma ThroughLinkEntries(fs: Fs)
    requires fs == map["s" := File, "l" := Link("t", false), "m" := Link("n/t", false)]
    ensures "s" in fs && fs["s"] == File && "l" in fs && fs["l"] == Link("t", false)
    ensures "m" in fs && fs["m"] == Link("n/t", false) && "t" !in fs && "n" !in fs
    ensures Dirname("t") == "" && Dirname("n/t") == "n"
  {
    assert "s"[0] != "l"[0] && "s"[0] != "m"[0] && "l"[0] != "m"[0];
    assert "t"[0] != "s"[0] && "t"[0] != "l"[0] && "t"[0] != "m"[0];
    assert "n"[0] != "s"[0] && "n"[0] != "l"[0] && "n"[0] != "m"[0];
    assert LastSlash("t") == -1;
    assert "n/t"[..2] == "n/";
    assert LastSlash("n/t") == 1;
    assert "n/"[..1] == "n";
    assert RStripSlash("n/") == "n";
  }

  lemma ThroughLinkResolves(fs: Fs)
    requires fs == map["s" := File, "l" := Link("t", false), "m" := Link("n/t", false)]
    ensures !IsDir(fs, "l") && !IsDir(fs, "m") && IsFile(fs, "s") && Resolve(fs, "s") == "s"
    ensures Resolve(fs, "l") == "t" && Resolve(fs, "m") == "n/t"
  {
    ThroughLinkEntries(fs);
  }

  /** `copy2` writes through a link at its destination: `cp s l` with `l`
      a dangling link to `t` keeps the link and creates `t`. */
  lemma CopyThroughLink(fs: Fs)
    requires fs == map["s" := File, "l" := Link("t", false), "m" := Link("n/t", false)]
    ensures var r := OsCopy2(fs, {}, "s", "l");
            r.ok && "l" in r.fs && r.fs["l"] == Link("t", false) && "t" in r.fs && r.fs["t"] == File
  {
    ThroughLinkEntries(fs);
    ThroughLinkResolves(fs);
    assert Destination(fs, "s", "l") == "l";
    assert ParentExists(fs, "t");
    assert OsCopy2(fs, {}, "s", "l").fs == fs["t" := File];
  }

  /** `cp s m` with `m` a link into the missing directory `n` raises, since
      `open` cannot create `n/t`. */
  lemma CopyThroughLinkIntoMissingDir(fs: Fs)
    requires fs == map["s" := File, "l" := Link("t", false), "m" := Link("n/t", false)]
    ensures OsCopy2(fs, {}, "s", "m") == Res(false, fs)
  {
    ThroughLinkEntries(fs);
    ThroughLinkResolves(fs);
    assert Destination(fs, "s", "m") == "m";
    assert !ParentExists(fs, "n/t");
  }

  // cp

  /** The call `cp` makes on one match, or `None` when it skips the match:
      a file is copied (a link is recreated under `-P` and followed
      otherwise), a directory is copied as a tree with `-r` and skipped
      silently without it. */
  function CpCall(o: Options, fs: Fs, file: string): Option<Call> {
    if IsFile(fs, file) then Some(if IsLink(fs, file) && !o.followSymlinks then Symlink else Copy)
    else if o.recursive then Some(CopyTree)
    else None
  }

  function CpRes(o: Options, fs: Fs, faults: Faults, file: string, dst: string): Res {
    if IsFile(fs, file) then
      if IsLink(fs, file) && !o.followSymlinks then CopyLink(fs, faults, file, dst) else OsCopy2(fs, faults, file, dst)
    else OsCopyTree(fs, faults, file, dst, o.followSymlinks)
  }

  function CopyFiles(o: Options, faults: Faults, r: Run, files: seq<string>, dst: string): Run
    decreases |files|
  {
    if files == [] || r.done then r
    else
      var f := files[0];
      match CpCall(o, r.fs, f)
      case None => CopyFiles(o, faults, r, files[1..], dst)
      case Some(call) => CopyFiles(o, faults, TryOnce(r, o.force, call, f, CpRes(o, r.fs, faults, f, dst), CannotCopy(f, dst)), files[1..], dst)
  }

  /** A single argument is copied to the current directory. */
  function CpArgs(args: seq<string>): seq<string> {
    if |args| == 1 then args + ["."] else args
  }

  /** What `cp` does to a state. */
  function CpOutcome(o: Options, args0: seq<string>, fs: Fs, glob: Glob, faults: Faults): Run {
    if |args0| < 1 then Abort(Start(fs), InvalidParameterFor("cp", args0))
    else
      var args := CpArgs(args0);
      var dst := args[|args| - 1];
      var files := Pool(glob, fs, args[..|args| - 1]);
      match PreCheck(o, fs, files, dst, args[|args| - 2])
      case Some(m) => Abort(Start(fs), m)
      case None => CopyFiles(o, faults, Start(fs), files, dst)
  }

  method CopyEach(o: Options, faults: Faults, fs0: Fs, files: seq<string>, dst: string)
    returns (status: int, fs: Fs, err: seq<Message>)
    ensures var r := CopyFiles(o, faults, Start(fs0), files, dst);
            status == r.status && fs == r.fs && err == r.err
  {
    status, fs, err := 0, fs0, [];
    ghost var tried: seq<Attempt> := [];
    var j := 0;
    while j < |files|
      invariant 0 <= j <= |files|
      invariant CopyFiles(o, faults, Run(status, fs, err, tried, false), files[j..], dst) == CopyFiles(o, faults, Start(fs0), files, dst)
    {
      var file := files[j];
      assert files[j..][1..] == files[j + 1..];
      var res: Res;
      var call: Call;
      if IsFile(fs, file) {
        if IsLink(fs, file) && !o.followSymlinks {
          call, res := Symlink, CopyLink(fs, faults, file, dst);
        } else {
          call, res := Copy, OsCopy2(fs, faults, file, dst);
        }
      } else if o.recursive {
        call, res := CopyTree, OsCopyTree(fs, faults, file, dst, o.followSymlinks);
      } else {
        j := j + 1;
        continue;
      }
      tried := tried + [Attempt(call, file, res.ok)];
      fs := res.fs;
      if !res.ok {
        status := EFAIL;
        if !o.force {
          err := err + [CannotCopy(file, dst)];
        }
        return;
      }
      j := j + 1;
    }
  }

  method Cp(o: Options, args0: seq<string>, fs0: Fs, glob: Glob, faults: Faults)
    returns (status: int, fs: Fs, err: seq<Message>)
    ensures var r := CpOutcome(o, args0, fs0, glob, faults);
            status == r.status && fs == r.fs && err == r.err
  {
    fs := fs0;
    var args := args0;
    if |args| < 1 {
      return EFAIL, fs, [InvalidParameterFor("cp", args)];
    }
    if |args| == 1 {
      args := args + ["."];
    }
    var dst := args[|args| - 1];
    var files := PoolMatches(glob, fs, args[..|args| - 1]);
    if |files| > 1 && !IsDir(fs, dst) {
      return EFAIL, fs, [NotADirectory(dst)];
    }
    if files == [] && !o.force {
      return EFAIL, fs, [CannotFindFile(args[|args| - 2])];
    }
    status, fs, err := CopyEach(o, faults, fs, files, dst);
  }

  lemma {:induction false} CopyFilesStop(o: Options, faults: Faults, r: Run, files: seq<string>, dst: string)
    requires StopRun(r, o.force)
    ensures StopRun(CopyFiles(o, faults, r, files, dst), o.force)
    decreases |files|
  {
    if files != [] && !r.done {
      var f := files[0];
      match CpCall(o, r.fs, f)
      case None => CopyFilesStop(o, faults, r, files[1..], dst);
      case Some(call) =>
        TryOnceStop(r, o.force, call, f, CpRes(o, r.fs, faults, f, dst), CannotCopy(f, dst));
        CopyFilesStop(o, faults, TryOnce(r, o.force, call, f, CpRes(o, r.fs, faults, f, dst), CannotCopy(f, dst)), files[1..], dst);
    }
  }

  /** Once past its checks, `cp` stops at the first copy that raises and
      returns EFAIL, with or without force; force only suppresses the
      message. */
  lemma CpStopsAtFirstFailure(o: Options, args: seq<string>, fs: Fs, glob: Glob, faults: Faults)
    requires |args| >= 1
    requires var a := CpArgs(args);
             PreCheck(o, fs, Pool(glob, fs, a[..|a| - 1]), a[|a| - 1], a[|a| - 2]) == None
    ensures StopRun(CpOutcome(o, args, fs, glob, faults), o.force)
  {
    var a := CpArgs(args);
    CopyFilesStop(o, faults, Start(fs), Pool(glob, fs, a[..|a| - 1]), a[|a| - 1]);
  }

  /** A single `cp -r` of a directory that returns 0 has copied every entry
      below it, each to its rebased path in `join(dst, basename(src))`
      with the kind `copytree` gives it, and has made every missing
      directory of that destination. */
  lemma CpCopiesTree(o: Options, src: string, dst: string, fs: Fs, glob: Glob, faults: Faults)
    requires o.recursive && glob(fs, src) == [src] && !IsFile(fs, src)
    requires CpOutcome(o, [src, dst], fs, glob, faults).status == 0
    ensures var to := Join(dst, Basename(src));
            var r := CpOutcome(o, [src, dst], fs, glob, faults);
            && IsDir(fs, src) && ChainOpen(fs, to)
            && (forall q :: q in Chain(to) && q != "" ==>
                  q in r.fs && (q in fs ==> r.fs[q] == fs[q]) && (q !in fs ==> r.fs[q] == Dir))
            && (forall q :: q in fs && Under(q, src) ==>
                  Copyable(fs, q, o.followSymlinks)
                  && Rebase(q, src, to) in r.fs && r.fs[Rebase(q, src, to)] == CopiedKind(fs, q, o.followSymlinks))
  {
    var a := [src, dst];
    assert CpArgs(a) == a && a[..1] == [src] && a[|a| - 1] == dst && a[|a| - 2] == src;
    assert Pool(glob, fs, [src]) == [src] by {
      assert [src][..0] == [];
    }
    assert PreCheck(o, fs, [src], dst, src) == None;
    assert CpCall(o, fs, src) == Some(CopyTree);
    var res := OsCopyTree(fs, faults, src, dst, o.followSymlinks);
    var r1 := TryOnce(Start(fs), o.force, CopyTree, src, res, CannotCopy(src, dst));
    assert [src][1..] == [];
    assert CopyFiles(o, faults, Start(fs), [src], dst) == CopyFiles(o, faults, r1, [], dst);
    assert CpOutcome(o, a, fs, glob, faults) == r1;
    assert res.ok;
    var to := Join(dst, Basename(src));
    assert !CopyTreeRefused(fs, faults, src, to);
    forall q | q in fs && Under(q, src)
      ensures Copyable(fs, q, o.followSymlinks)
      ensures Rebase(q, src, to) in r1.fs && r1.fs[Rebase(q, src, to)] == CopiedKind(fs, q, o.followSymlinks)
    {
      assert q in CopiedSources(fs, src, o.followSymlinks);
    }
  }

  lemma ChainOfName(a: char)
    requires a != '/'
    ensures Dirname([a]) == "" && Chain([a]) == [[a], ""]
  {
    assert LastSlash([a]) == LastSlash([]) by {
      assert [a][..0] == [];
    }
    assert Chain("") == [""] by {
      assert Dirname("") == "";
    }
  }

  /** The paths of a child `a/b` of a one-letter directory `a`. */
  lemma ChildPaths(a: char, b: char)
    requires a != '/' && b != '/'
    ensures Join([a], [b]) == [a, '/', b] && DirPrefix([a, '/', b]) == [a, '/', b, '/']
    ensures Dirname([a, '/', b]) == [a] && Chain([a, '/', b]) == [[a, '/', b], [a], ""]
  {
    var p := [a, '/', b];
    assert [b][..1] == [b] && [a][0..] == [a] && p[2..] == [b];
    assert LastSlash(p) == 1 by {
      assert p[..2] == [a, '/'];
    }
    assert p[..2] == [a, '/'] && [a, '/'][..1] == [a];
    assert RStripSlash([a, '/']) == [a];
    ChainOfName(a);
  }

  /** A file on the chain of `p` makes `makedirs(p)` raise. */
  lemma FileBlocksChain(fs: Fs, p: string, q: string)
    requires q in Chain(p) && q != "" && q in fs && fs[q] == File
    ensures !ChainOpen(fs, p)
  {
  }

  lemma FileFsEntries(fs: Fs)
    requires fs == map["d" := Dir, "f" := File]
    ensures "d" in fs && fs["d"] == Dir && "f" in fs && fs["f"] == File
  {
    assert "f" != "d" by {
      assert "f"[0] != "d"[0];
    }
  }

  lemma FileAncestorBlocks(fs: Fs)
    requires fs == map["d" := Dir, "f" := File]
    ensures Join("f", Basename("d")) == "f/d" && !ChainOpen(fs, "f/d")
  {
    FileFsEntries(fs);
    ExamplePaths();
    ChildPaths('f', 'd');
    FileBlocksChain(fs, "f/d", "f");
  }

  /** `cp -r d f` with `f` a file: `makedirs("f/d")` raises
      NotADirectoryError, so the copy fails and nothing changes. */
  lemma CopyUnderFileFails(fs: Fs)
    requires fs == map["d" := Dir, "f" := File]
    ensures OsCopyTree(fs, {}, "d", "f", true) == Res(false, fs)
  {
    FileAncestorBlocks(fs);
    assert CopyTreeRefused(fs, {}, "d", "f/d");
  }

  lemma TreeFsEntries(fs: Fs)
    requires fs == map["d" := Dir, "d/x" := File]
    ensures "d" in fs && fs["d"] == Dir && "d/x" in fs && fs["d/x"] == File
    ensures forall q :: q in fs ==> q == "d" || q == "d/x"
  {
    assert "d" != "d/x" by {
      assert |"d"| != |"d/x"|;
    }
  }

  lemma FreshChildOpen(fs: Fs)
    requires fs == map["d" := Dir, "d/x" := File]
    ensures !CopyTreeRefused(fs, {}, "d", "d/d")
  {
    TreeFsEntries(fs);
    ChildPaths('d', 'd');
    assert !InTree("d/x", "d/d") && !InTree("d", "d/d");
    assert FreshChild(fs, "d", "d/d");
    assert ChainOpen(fs, "d/d");
  }

  lemma FreshChildSources(fs: Fs)
    requires fs == map["d" := Dir, "d/x" := File]
    ensures forall q :: q in fs && Under(q, "d") ==> q == "d/x"
    ensures "d/x" in CopiedSources(fs, "d", true) && Rebase("d/x", "d", "d/d") == "d/d/x"
  {
    TreeFsEntries(fs);
    ExamplePrefixes();
    ChildPaths('d', 'd');
    assert "d/x"[..2] == "d/" && "d/x"[2..] == "x";
    assert !Under("d", "d");
    assert "d/d/" + "x" == "d/d/x";
  }

  lemma FreshChildCopies(fs: Fs)
    requires fs == map["d" := Dir, "d/x" := File]
    ensures ChainOpen(fs, "d/d") && OsCopyTree(fs, {}, "d", "d", true) == Res(true, CopyTreeFs(fs, "d", "d/d", true))
  {
    TreeFsEntries(fs);
    ExamplePaths();
    ChildPaths('d', 'd');
    FreshChildOpen(fs);
    FreshChildSources(fs);
    assert Copyable(fs, "d/x", true);
  }

  /** `cp -r d d` with `d/x` a file: `copytree` completes, leaving a copy
      of the original tree at `d/d`. */
  lemma CopyIntoFreshChild(fs: Fs)
    requires fs == map["d" := Dir, "d/x" := File]
    ensures var r := OsCopyTree(fs, {}, "d", "d", true);
            && r.ok && "d/d" in r.fs && r.fs["d/d"] == Dir && "d/d/x" in r.fs && r.fs["d/d/x"] == File
  {
    FreshChildCopies(fs);
    FreshChildOpen(fs);
    FreshChildSources(fs);
    TreeFsEntries(fs);
    ChildPaths('d', 'd');
    assert "d/d" in Chain("d/d") && "d/d" !in fs;
    assert CopiedKind(fs, "d/x", true) == File;
  }

  /** `cp x` is `cp x .`. */
  lemma CpSingleArgument(o: Options, x: string, fs: Fs, glob: Glob, faults: Faults)
    ensures CpOutcome(o, [x], fs, glob, faults) == CpOutcome(o, [x, "."], fs, glob, faults)
  {
    assert CpArgs([x]) == [x, "."];
  }

  lemma {:induction false} CopyFilesSkipsDirectories(o: Options, faults: Faults, r: Run, files: seq<string>, dst: string)
    requires !o.recursive
    requires forall k :: 0 <= k < |files| ==> !IsFile(r.fs, files[k])
    ensures CopyFiles(o, faults, r, files, dst) == r
    decreases |files|
  {
    if files != [] && !r.done {
      assert !IsFile(r.fs, files[0]);
      forall k | 0 <= k < |files[1..]| ensures !IsFile(r.fs, files[1..][k]) {
        assert files[1..][k] == files[k + 1];
      }
      CopyFilesSkipsDirectories(o, faults, r, files[1..], dst);
    }
  }

  /** Without `-r`, a `cp` whose matches are all directories (or anything but
      files) passes its checks, then copies nothing, writes nothing and
      returns 0. */
  lemma CpSkipsDirectoriesSilently(o: Options, args: seq<string>, fs: Fs, glob: Glob, faults: Faults)
    requires |args| >= 1 && !o.recursive
    requires var a := CpArgs(args);
             var files := Pool(glob, fs, a[..|a| - 1]);
             PreCheck(o, fs, files, a[|a| - 1], a[|a| - 2]) == None
             && forall k :: 0 <= k < |files| ==> !IsFile(fs, files[k])
    ensures var r := CpOutcome(o, args, fs, glob, faults);
            r.status == 0 && r.fs == fs && r.err == [] && r.tried == []
  {
    var a := CpArgs(args);
    CopyFilesSkipsDirectories(o, faults, Start(fs), Pool(glob, fs, a[..|a| - 1]), a[|a| - 1]);
  }

  /** Several matches and a destination that is not a directory: EFAIL and one
      message before anything is copied, even with force. */
  lemma CpNeedsDirectory(o: Options, args: seq<string>, fs: Fs, glob: Glob, faults: Faults)
    requires |args| >= 1
    requires var a := CpArgs(args);
             |Pool(glob, fs, a[..|a| - 1])| > 1 && !IsDir(fs, a[|a| - 1])
    ensures var a := CpArgs(args);
            var r := CpOutcome(o, args, fs, glob, faults);
            r.status == EFAIL && r.fs == fs && r.err == [NotADirectory(a[|a| - 1])] && r.tried == []
  {
  }

  /** No copy step makes a link to a path that no link named before: a
      recreated or copied link keeps the target of its source link. */
  lemma CpResUntargeted(o: Options, fs: Fs, faults: Faults, file: string, dst: string, q: string)
    requires Untargeted(fs, q)
    ensures Untargeted(CpRes(o, fs, faults, file, dst).fs, q)
  {
    if IsFile(fs, file) && IsLink(fs, file) && !o.followSymlinks {
      var to := Destination(fs, file, dst);
      if !(to in fs && (Fault(Unlink, to) in faults || fs[to].Dir?)) {
        assert CopyLink(fs, faults, file, dst) == OsSymlink(fs - {to}, faults, fs[file].target, to, false);
      }
    }
  }

  /** The copy loop changes nothing outside the destination but the
      targets of links: `copy2` writes through a link at its destination. */
  lemma {:induction false} CopyFilesFrame(o: Options, faults: Faults, r: Run, files: seq<string>, dst: string, q: string)
    requires q in r.fs && !StartsWith(q, dst) && Untargeted(r.fs, q)
    ensures var r' := CopyFiles(o, faults, r, files, dst);
            q in r'.fs && r'.fs[q] == r.fs[q]
    decreases |files|
  {
    if files != [] && !r.done {
      var f := files[0];
      DestinationStartsWith(r.fs, f, dst);
      match CpCall(o, r.fs, f)
      case None => CopyFilesFrame(o, faults, r, files[1..], dst, q);
      case Some(call) =>
        var res := CpRes(o, r.fs, faults, f, dst);
        assert q in res.fs && res.fs[q] == r.fs[q] by {
          if !IsFile(r.fs, f) {
            var to := Join(dst, Basename(f));
            TreeStartsWith(q, to, dst);
            assert !Under(q, to);
          } else if IsLink(r.fs, f) && !o.followSymlinks {
            var to := Destination(r.fs, f, dst);
            assert q != to;
            if to in r.fs && (Fault(Unlink, to) in faults || r.fs[to].Dir?) {
            } else {
              var cleared := r.fs - {to};
              assert res == OsSymlink(cleared, faults, r.fs[f].target, to, false);
            }
          }
        }
        CpResUntargeted(o, r.fs, faults, f, dst, q);
        CopyFilesFrame(o, faults, TryOnce(r, o.force, call, f, res, CannotCopy(f, dst)), files[1..], dst, q);
    }
  }

  /** `cp` changes nothing but paths beginning with the destination and
      the targets of links: in particular every source that no link names
      survives unchanged. */
  lemma CpFrame(o: Options, args: seq<string>, fs: Fs, glob: Glob, faults: Faults, q: string)
    requires |args| >= 1 && q in fs && !StartsWith(q, CpArgs(args)[|CpArgs(args)| - 1]) && Untargeted(fs, q)
    ensures q in CpOutcome(o, args, fs, glob, faults).fs && CpOutcome(o, args, fs, glob, faults).fs[q] == fs[q]
  {
    var a := CpArgs(args);
    var files := Pool(glob, fs, a[..|a| - 1]);
    if PreCheck(o, fs, files, a[|a| - 1], a[|a| - 2]) == None {
      CopyFilesFrame(o, faults, Start(fs), files, a[|a| - 1], q);
    }
  }

  /** Under `-P` (`--no-dereference`), copying a link makes a new link to the same target. */
  lemma CpRecreatesLink(o: Options, src: string, dst: string, fs: Fs, glob: Glob, faults: Faults)
    requires !o.followSymlinks && glob(fs, src) == [src] && IsLink(fs, src) && IsFile(fs, src)
    requires CpOutcome(o, [src, dst], fs, glob, faults).status == 0
    ensures var to := Destination(fs, src, dst);
            var r := CpOutcome(o, [src, dst], fs, glob, faults);
            to in r.fs && r.fs[to] == Link(fs[src].target, false)
  {
    var a := [src, dst];
    assert a[..1] == [src];
    assert Pool(glob, fs, [src]) == [src] by {
      assert [src][..0] == [];
    }
    assert CpArgs(a) == a && a[|a| - 1] == dst;
    assert PreCheck(o, fs, [src], dst, src) == None;
    assert CpCall(o, fs, src) == Some(Symlink);
    var r1 := TryOnce(Start(fs), o.force, Symlink, src, CopyLink(fs, faults, src, dst), CannotCopy(src, dst));
    assert [src][1..] == [];
    assert CopyFiles(o, faults, Start(fs), [src], dst) == CopyFiles(o, faults, r1, [], dst);
    assert CpOutcome(o, a, fs, glob, faults) == r1;
  }

  // mklink

  /** The link target with both separators replaced by the host's `os.sep`. */
  function LinkTarget(target: string, sep: char): (r: string)
    ensures |r| == |target|
    ensures forall i :: 0 <= i < |r| ==> (r[i] == sep || (r[i] != '/' && r[i] != '\\'))
  {
    ReplaceChar(ReplaceChar(target, '/', sep), '\\', sep)
  }

  /** What `mklink` does: fewer than two arguments return EINVAL; otherwise
      one symbolic link is made, a directory link under `-d` or when the
      target is a directory. */
  function MklinkOutcome(o: Options, args: seq<string>, fs: Fs, faults: Faults, sep: char): Run {
    if |args| < 2 then Run(EINVAL, fs, [InvalidParameter], [], true)
    else
      var link := args[0];
      var target := LinkTarget(args[1], sep);
      var dirLink := o.symlinkd || IsDir(fs, target);
      TryOnce(Start(fs), o.force, Symlink, link, OsSymlink(fs, faults, target, link, dirLink), CannotCreateLink(link, target))
  }

  /** `mklink` changes at most the link path; it returns 0 exactly when the
      link was made, EFAIL when `os.symlink` raised (with a message only
      without force) and EINVAL on missing arguments. */
  lemma MklinkContract(o: Options, args: seq<string>, fs: Fs, faults: Faults, sep: char)
    ensures var r := MklinkOutcome(o, args, fs, faults, sep);
            && (|args| < 2 ==> r.status == EINVAL && r.fs == fs && r.err == [InvalidParameter])
            && (|args| >= 2 ==>
                  var target := LinkTarget(args[1], sep);
                  && StopRun(r, o.force)
                  && (r.status == 0 <==> Fault(Symlink, args[0]) !in faults && args[0] !in fs && ParentExists(fs, args[0]))
                  && (r.status == 0 ==> r.fs == fs[args[0] := Link(target, o.symlinkd || IsDir(fs, target))])
                  && (r.status != 0 ==> r.fs == fs && r.err == (if o.force then [] else [CannotCreateLink(args[0], target)])))
  {
    if |args| >= 2 {
      var target := LinkTarget(args[1], sep);
      var res := OsSymlink(fs, faults, target, args[0], o.symlinkd || IsDir(fs, target));
      TryOnceStop(Start(fs), o.force, Symlink, args[0], res, CannotCreateLink(args[0], target));
    }
  }
}
