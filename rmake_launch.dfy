/** The two loops of `RsyncMake` that run before any repository work:
    `get_workspace_dir`, the search for the nearest ancestor that looks like
    an rmake workspace, and the argument loop of `wsl_main`, which separates
    the options meant for `wsl.exe` from those meant for rmake. */
module RmakeLaunch {
  import opened Text
  import opened FileSystem

  // get_workspace_dir

  /** `RMAKE_USER`, `RMAKE_INCLUDES` and `RMAKE_EXCLUDES`, in the order they
      are looked for. */
  const MARKER_FILES: seq<string> := [".rmake-user.py", ".rmake-includes", ".rmake-excludes"]

  /** A directory holding one of the marker files or a `.git` directory. */
  predicate HasMarker(fs: Fs, dir: string) {
    (exists j :: 0 <= j < |MARKER_FILES| && IsFile(fs, Join(dir, MARKER_FILES[j])))
    || IsDir(fs, Join(dir, ".git"))
  }

  /** The search from `current` upwards; `start` is the answer when the root
      is passed without a marker. */
  function WorkspaceFrom(fs: Fs, current: string, start: string): string
    decreases |current|
  {
    if HasMarker(fs, current) then current
    else
      var parent := Dirname(current);
      if current == parent then start else WorkspaceFrom(fs, parent, start)
  }

  /** `get_workspace_dir` on the (already resolved) directory of a script. */
  method GetWorkspaceDir(fs: Fs, scriptDir: string) returns (r: string)
    ensures r == WorkspaceFrom(fs, scriptDir, scriptDir)
  {
    var current := scriptDir;
    while true
      invariant WorkspaceFrom(fs, current, scriptDir) == WorkspaceFrom(fs, scriptDir, scriptDir)
      decreases |current|
    {
      var k := 0;
      while k < |MARKER_FILES|
        invariant 0 <= k <= |MARKER_FILES|
        invariant forall j :: 0 <= j < k ==> !IsFile(fs, Join(current, MARKER_FILES[j]))
      {
        if IsFile(fs, Join(current, MARKER_FILES[k])) {
          return current;
        }
        k := k + 1;
      }
      if IsDir(fs, Join(current, ".git")) {
        return current;
      }
      var parent := Dirname(current);
      if current == parent {
        break;
      }
      current := parent;
    }
    return scriptDir;
  }

  /** `r` is the first entry of `c` with a marker. */
  predicate FirstMarked(fs: Fs, c: seq<string>, r: string) {
    exists i :: 0 <= i < |c| && c[i] == r && HasMarker(fs, c[i]) && forall j :: 0 <= j < i ==> !HasMarker(fs, c[j])
  }

  /** The workspace is the nearest ancestor (the start included) with a
      marker file or a `.git` directory, and the start itself when there is
      none. */
  lemma {:induction false} WorkspaceNearest(fs: Fs, current: string, start: string)
    ensures var r := WorkspaceFrom(fs, current, start);
            var c := Chain(current);
            FirstMarked(fs, c, r) || (r == start && NoneMarked(fs, c))
    decreases |current|
  {
    var parent := Dirname(current);
    ChainStep(current);
    if HasMarker(fs, current) {
      assert Chain(current)[0] == current;
    } else if current != parent {
      WorkspaceNearest(fs, parent, start);
      MarkedBelow(fs, current, Chain(parent), WorkspaceFrom(fs, parent, start), start);
    }
  }

  predicate NoneMarked(fs: Fs, c: seq<string>) {
    forall i :: 0 <= i < |c| ==> !HasMarker(fs, c[i])
  }

  lemma ChainStep(p: string)
    ensures Dirname(p) == p ==> Chain(p) == [p]
    ensures Dirname(p) != p ==> Chain(p) == [p] + Chain(Dirname(p))
  {
  }

  lemma MarkedBelow(fs: Fs, p: string, c: seq<string>, r: string, start: string)
    requires !HasMarker(fs, p)
    requires FirstMarked(fs, c, r) || (r == start && NoneMarked(fs, c))
    ensures FirstMarked(fs, [p] + c, r) || (r == start && NoneMarked(fs, [p] + c))
  {
    var c2 := [p] + c;
    if FirstMarked(fs, c, r) {
      var i :| 0 <= i < |c| && c[i] == r && HasMarker(fs, c[i]) && forall j :: 0 <= j < i ==> !HasMarker(fs, c[j]);
      assert c2[i + 1] == r;
      forall j | 0 <= j < i + 1 ensures !HasMarker(fs, c2[j]) {
        if j > 0 { assert c2[j] == c[j - 1]; }
      }
    } else {
      forall i | 0 <= i < |c2| ensures !HasMarker(fs, c2[i]) {
        if i > 0 { assert c2[i] == c[i - 1]; }
      }
    }
  }

  // wsl_main

  /** The options taken out for `wsl.exe`, in the order they are tried. */
  const WSL_OPTIONS: seq<string> := ["--wsl-distribution", "--wsl-d", "--wsl-user", "--wsl-u"]

  /** The `wsl.exe` spelling of a separate option: the long forms lose
      `-wsl`, the short ones `--wsl`. */
  function Renamed(option: string): string {
    Replace(option, if |option| > 7 then "-wsl" else "--wsl", "")
  }

  /** What one argument is: an option whose value follows it, an option with
      its value after `=`, or anything else. */
  datatype ArgKind = Switch(flag: string) | Inline | Plain

  function ClassifyFrom(arg: string, k: nat): ArgKind
    decreases |WSL_OPTIONS| - k
  {
    if k >= |WSL_OPTIONS| then Plain
    else
      var option := WSL_OPTIONS[k];
      if arg == option then Switch(Renamed(option))
      else if StartsWith(option, "--") && StartsWith(arg, option + "=") then Inline
      else ClassifyFrom(arg, k + 1)
  }

  function Classify(arg: string): ArgKind {
    ClassifyFrom(arg, 0)
  }

  /** The inner `for option in ...` loop on one argument. */
  method ClassifyArg(arg: string) returns (kind: ArgKind)
    ensures kind == Classify(arg)
  {
    var k := 0;
    while k < |WSL_OPTIONS|
      invariant 0 <= k <= |WSL_OPTIONS|
      invariant ClassifyFrom(arg, k) == Classify(arg)
    {
      var option := WSL_OPTIONS[k];
      if arg == option {
        return Switch(Renamed(option));
      } else if StartsWith(option, "--") && StartsWith(arg, option + "=") {
        return Inline;
      }
      k := k + 1;
    }
    return Plain;
  }

  /** The arguments for `wsl.exe` and for rmake, or the option whose value is
      missing. */
  datatype WslSplit = Parted(wsl: seq<string>, rmake: seq<string>) | MissingValue(option: string)

  function Prepend(w: seq<string>, r: seq<string>, s: WslSplit): WslSplit {
    match s
    case Parted(w', r') => Parted(w + w', r + r')
    case MissingValue(_) => s
  }

  /** The loop of `wsl_main` over the command line. An empty argument is
      dropped, since `if arg:` is false for it. */
  function SplitArgs(args: seq<string>): WslSplit
    decreases |args|
  {
    if args == [] then Parted([], [])
    else
      match Classify(args[0])
      case Switch(flag) =>
        if |args| <= 1 then MissingValue(args[0]) else Prepend([flag, args[1]], [], SplitArgs(args[2..]))
      case Inline => Prepend([args[0]], [], SplitArgs(args[1..]))
      case Plain => Prepend([], if args[0] != "" then [args[0]] else [], SplitArgs(args[1..]))
  }

  lemma PrependPrepend(w: seq<string>, r: seq<string>, w': seq<string>, r': seq<string>, s: WslSplit)
    ensures Prepend(w, r, Prepend(w', r', s)) == Prepend(w + w', r + r', s)
  {
    if s.Parted? {
      assert w + (w' + s.wsl) == (w + w') + s.wsl;
      assert r + (r' + s.rmake) == (r + r') + s.rmake;
    }
  }

  /** One step of `SplitArgs`, for each kind of first argument. */
  lemma SplitStep(args: seq<string>)
    requires args != []
    ensures Classify(args[0]).Switch? && |args| <= 1 ==> SplitArgs(args) == MissingValue(args[0])
    ensures Classify(args[0]).Switch? && |args| > 1 ==>
              SplitArgs(args) == Prepend([Classify(args[0]).flag, args[1]], [], SplitArgs(args[2..]))
    ensures Classify(args[0]).Inline? ==> SplitArgs(args) == Prepend([args[0]], [], SplitArgs(args[1..]))
    ensures Classify(args[0]).Plain? ==>
              SplitArgs(args) == Prepend([], if args[0] != "" then [args[0]] else [], SplitArgs(args[1..]))
  {
  }

  method SplitWslArgs(args: seq<string>) returns (s: WslSplit)
    ensures s == SplitArgs(args)
  {
    var cmdArgs := args;
    var wslArgs: seq<string> := [];
    var rmakeArgs: seq<string> := [];
    while cmdArgs != []
      invariant Prepend(wslArgs, rmakeArgs, SplitArgs(cmdArgs)) == SplitArgs(args)
      decreases |cmdArgs|
    {
      var arg := cmdArgs[0];
      var kind := ClassifyArg(arg);
      SplitStep(cmdArgs);
      match kind {
        case Switch(flag) =>
          if |cmdArgs| <= 1 {
            return MissingValue(arg);
          }
          PrependPrepend(wslArgs, rmakeArgs, [flag, cmdArgs[1]], [], SplitArgs(cmdArgs[2..]));
          assert rmakeArgs + [] == rmakeArgs;
          assert cmdArgs[1..][1..] == cmdArgs[2..];
          wslArgs := wslArgs + [flag, cmdArgs[1]];
          cmdArgs := cmdArgs[1..];
        case Inline =>
          PrependPrepend(wslArgs, rmakeArgs, [arg], [], SplitArgs(cmdArgs[1..]));
          assert rmakeArgs + [] == rmakeArgs;
          wslArgs := wslArgs + [arg];
        case Plain =>
          var taken := if arg != "" then [arg] else [];
          PrependPrepend(wslArgs, rmakeArgs, [], taken, SplitArgs(cmdArgs[1..]));
          assert wslArgs + [] == wslArgs;
          if arg != "" {
            rmakeArgs := rmakeArgs + [arg];
          } else {
            assert rmakeArgs + [] == rmakeArgs;
          }
      }
      cmdArgs := cmdArgs[1..];
    }
    assert wslArgs + [] == wslArgs && rmakeArgs + [] == rmakeArgs;
    return Parted(wslArgs, rmakeArgs);
  }

  /** `a` is `b` with some elements left out, the rest in order. */
  predicate IsSubsequence(a: seq<string>, b: seq<string>)
    decreases |b|
  {
    if a == [] then true
    else if b == [] then false
    else (a[0] == b[0] && IsSubsequence(a[1..], b[1..])) || IsSubsequence(a, b[1..])
  }

  /** The `wsl.exe` spellings of `WSL_OPTIONS`, entry by entry. */
  const WSL_FLAGS: seq<string> := ["--distribution", "-d", "--user", "-u"]

  /** The options `wsl_main` takes out are spelled for `wsl.exe`:
      `--distribution`, `-d`, `--user` and `-u`. */
  lemma RenamedOptions(k: nat)
    requires k < |WSL_OPTIONS|
    ensures Classify(WSL_OPTIONS[k]) == Switch(WSL_FLAGS[k])
  {
    ClassifyAt(k);
    RenamedFlag(WSL_OPTIONS[k], WSL_FLAGS[k], k);
  }

  lemma RenamedFlag(option: string, flag: string, k: nat)
    requires k < |WSL_OPTIONS| && option == WSL_OPTIONS[k] && flag == WSL_FLAGS[k]
    ensures Renamed(option) == flag
  {
    if k == 0 {
      RenamedDistribution(option);
    } else if k == 1 {
      RenamedShort(option, "-d");
    } else if k == 2 {
      RenamedLong(option, "user");
    } else {
      RenamedShort(option, "-u");
    }
  }

  lemma RenamedDistribution(option: string)
    requires option == "--wsl-distribution"
    ensures Renamed(option) == "--distribution"
  {
    var name := "distribution";
    assert option == "--wsl-" + name;
    assert !Contains(name, '-') by {
      forall i | 0 <= i < |name| ensures name[i] != '-' {
      }
    }
    RenamedLong(option, name);
  }

  /** Each separate option is recognised by its own entry. */
  lemma ClassifyAt(k: nat)
    requires k < |WSL_OPTIONS|
    ensures Classify(WSL_OPTIONS[k]) == Switch(Renamed(WSL_OPTIONS[k]))
  {
    var arg := WSL_OPTIONS[k];
    forall j | 0 <= j < k ensures arg != WSL_OPTIONS[j] && !StartsWith(arg, WSL_OPTIONS[j] + "=") {
      var o := WSL_OPTIONS[j];
      assert !Contains(arg, '=');
      assert !StartsWith(arg, o + "=") by {
        if |arg| >= |o| + 1 {
          assert (o + "=")[|o|] == '=';
          assert arg[..|o| + 1][|o|] == arg[|o|];
        }
      }
    }
    ClassifySkip(arg, 0, k);
  }

  lemma {:induction false} ClassifySkip(arg: string, j: nat, k: nat)
    requires j <= k < |WSL_OPTIONS| && arg == WSL_OPTIONS[k]
    requires forall i :: j <= i < k ==> arg != WSL_OPTIONS[i] && !StartsWith(arg, WSL_OPTIONS[i] + "=")
    ensures ClassifyFrom(arg, j) == Switch(Renamed(arg))
    decreases k - j
  {
    if j < k {
      ClassifySkip(arg, j + 1, k);
    }
  }

  /** A long option loses `-wsl`. */
  lemma RenamedLong(option: string, name: string)
    requires option == "--wsl-" + name
    requires |name| >= 2 && name[0] != 'w' && !Contains(name, '-')
    ensures Renamed(option) == "--" + name
  {
    var t := "-" + name;
    assert option[1..][4..] == t;
    DashKept(option);
    assert option[1..][..4] == "-wsl";
    ReplaceHit(option[1..], "-wsl", "");
    DashName(name);
    assert [option[0]] + t == "--" + name;
  }

  lemma DashKept(s: string)
    requires |s| >= 4 && s[1] == '-'
    ensures Replace(s, "-wsl", "") == [s[0]] + Replace(s[1..], "-wsl", "")
  {
    assert s[..4][1] != "-wsl"[1];
    ReplaceKeep(s, "-wsl", "");
  }

  lemma DashName(name: string)
    requires |name| >= 2 && name[0] != 'w' && !Contains(name, '-')
    ensures Replace("-" + name, "-wsl", "") == "-" + name
  {
    var t := "-" + name;
    assert t[1..] == name;
    ReplaceFree(name, "-wsl", "");
    if |t| >= 4 {
      assert t[..4][1] != "-wsl"[1];
      ReplaceKeep(t, "-wsl", "");
    }
  }

  lemma RenamedShort(option: string, flag: string)
    requires |option| == 7 && option == "--wsl-" + [option[6]] && flag == "-" + [option[6]]
    ensures Renamed(option) == flag
  {
    assert |option| == 7;
    assert option[..5] == "--wsl";
    assert option[5..] == flag;
    assert Replace(option, "--wsl", "") == "" + Replace(flag, "--wsl", "");
  }

  /** An argument that does not start with `--wsl-` goes to rmake. */
  lemma ClassifyPlain(arg: string)
    requires !StartsWith(arg, "--wsl-")
    ensures Classify(arg) == Plain
  {
    ClassifyFromPlain(arg, 0);
  }

  /** A prefix of a prefix is a prefix. */
  lemma PrefixOfPrefix(s: string, p: string, q: string)
    requires StartsWith(p, q)
    ensures StartsWith(s, p) ==> StartsWith(s, q)
  {
    if StartsWith(s, p) {
      assert s[..|q|] == s[..|p|][..|q|];
    }
  }

  lemma OptionPrefixed(k: nat)
    requires k < |WSL_OPTIONS|
    ensures StartsWith(WSL_OPTIONS[k], "--wsl-")
  {
    if k == 0 {
      assert WSL_OPTIONS[0][..6] == "--wsl-";
    } else if k == 1 {
      assert WSL_OPTIONS[1][..6] == "--wsl-";
    } else if k == 2 {
      assert WSL_OPTIONS[2][..6] == "--wsl-";
    } else {
      assert WSL_OPTIONS[3][..6] == "--wsl-";
    }
  }

  lemma {:induction false} ClassifyFromPlain(arg: string, k: nat)
    requires !StartsWith(arg, "--wsl-")
    ensures ClassifyFrom(arg, k) == Plain
    decreases |WSL_OPTIONS| - k
  {
    if k < |WSL_OPTIONS| {
      var option := WSL_OPTIONS[k];
      OptionPrefixed(k);
      assert (option + "=")[..6] == option[..6];
      PrefixOfPrefix(arg, option, "--wsl-");
      PrefixOfPrefix(arg, option + "=", "--wsl-");
      ClassifyFromPlain(arg, k + 1);
    }
  }

  /** The arguments rmake gets are non-empty arguments of the command line
      that are not for `wsl.exe`, in their original order. */
  lemma {:induction false} RmakeArgsKeepOrder(args: seq<string>)
    requires SplitArgs(args).Parted?
    ensures var r := SplitArgs(args).rmake;
            IsSubsequence(r, args) && forall i :: 0 <= i < |r| ==> r[i] != "" && Classify(r[i]) == Plain
    decreases |args|
  {
    if args != [] {
      match Classify(args[0])
      case Switch(flag) =>
        RmakeArgsKeepOrder(args[2..]);
        var r := SplitArgs(args[2..]).rmake;
        assert SplitArgs(args).rmake == r;
        assert args[1..][1..] == args[2..];
        SkipOne(r, args[1..]);
        SkipOne(r, args);
      case Inline =>
        RmakeArgsKeepOrder(args[1..]);
        assert SplitArgs(args).rmake == SplitArgs(args[1..]).rmake;
        SkipOne(SplitArgs(args[1..]).rmake, args);
      case Plain =>
        RmakeArgsKeepOrder(args[1..]);
        var r := SplitArgs(args[1..]).rmake;
        if args[0] != "" {
          assert SplitArgs(args).rmake == [args[0]] + r;
          assert ([args[0]] + r)[1..] == r;
        } else {
          assert SplitArgs(args).rmake == r;
          SkipOne(r, args);
        }
    }
  }

  lemma SkipOne(a: seq<string>, b: seq<string>)
    requires b != [] && IsSubsequence(a, b[1..])
    ensures IsSubsequence(a, b)
  {
  }

  /** Only empty arguments are lost: every other argument goes to one side. */
  lemma {:induction false} SplitArgsCount(args: seq<string>)
    requires SplitArgs(args).Parted?
    ensures var s := SplitArgs(args); |s.wsl| + |s.rmake| <= |args|
    ensures (forall i :: 0 <= i < |args| ==> args[i] != "") ==>
              var s := SplitArgs(args); |s.wsl| + |s.rmake| == |args|
    decreases |args|
  {
    if args != [] {
      var rest := if Classify(args[0]).Switch? then args[2..] else args[1..];
      forall i | 0 <= i < |rest| ensures rest[i] == args[i + |args| - |rest|] {
      }
      SplitArgsCount(rest);
    }
  }

  /** A command line without `--wsl-` options and without empty arguments
      goes to rmake as it is. */
  lemma {:induction false} SplitArgsPlain(args: seq<string>)
    requires forall i :: 0 <= i < |args| ==> args[i] != "" && !StartsWith(args[i], "--wsl-")
    ensures SplitArgs(args) == Parted([], args)
    decreases |args|
  {
    if args != [] {
      ClassifyPlain(args[0]);
      assert forall i :: 0 <= i < |args[1..]| ==> args[1..][i] == args[i + 1];
      SplitArgsPlain(args[1..]);
      assert [args[0]] + args[1..] == args;
    }
  }

  /** A missing value can only be that of the last argument, which is one of
      the separate options. */
  lemma {:induction false} MissingValueIsLast(args: seq<string>)
    requires SplitArgs(args).MissingValue?
    ensures args != [] && SplitArgs(args).option == args[|args| - 1]
    ensures SplitArgs(args).option in WSL_OPTIONS
    decreases |args|
  {
    var kind := Classify(args[0]);
    if kind.Switch? && |args| <= 1 {
      SwitchIsOption(args[0], 0);
    } else if kind.Switch? {
      MissingValueIsLast(args[2..]);
    } else {
      MissingValueIsLast(args[1..]);
    }
  }

  lemma {:induction false} SwitchIsOption(arg: string, k: nat)
    requires ClassifyFrom(arg, k).Switch?
    ensures arg in WSL_OPTIONS
    decreases |WSL_OPTIONS| - k
  {
    if k < |WSL_OPTIONS| && arg != WSL_OPTIONS[k] {
      SwitchIsOption(arg, k + 1);
    }
  }

  /** The value after a separate option is taken as it is, even when it looks
      like an option itself; a separate option at the end has no value. */
  lemma SplitExample()
    ensures SplitArgs(["--wsl-d", "--wsl-u"]) == Parted(["-d", "--wsl-u"], [])
    ensures SplitArgs(["build", "--wsl-u"]) == MissingValue("--wsl-u")
  {
    assert SplitArgs(["--wsl-d", "--wsl-u"]) == Parted(["-d", "--wsl-u"], []) by {
      RenamedOptions(1);
      SplitStep(["--wsl-d", "--wsl-u"]);
      assert ["--wsl-d", "--wsl-u"][2..] == [];
    }
    assert SplitArgs(["build", "--wsl-u"]) == MissingValue("--wsl-u") by {
      ClassifyPlain("build");
      RenamedOptions(3);
      SplitStep(["build", "--wsl-u"]);
      assert ["build", "--wsl-u"][1..] == ["--wsl-u"];
      SplitStep(["--wsl-u"]);
    }
  }

  /** The `=` forms go to `wsl.exe` unchanged. */
  lemma InlineOption(option: string, value: string)
    requires option in WSL_OPTIONS
    ensures Classify(option + "=" + value) == Inline
  {
    var arg := option + "=" + value;
    assert StartsWith(arg, option + "=") by { assert arg[..|option + "="|] == option + "="; }
    forall k | 0 <= k < |WSL_OPTIONS| ensures arg != WSL_OPTIONS[k] {
      assert arg[|option|] == '=';
      assert !Contains(WSL_OPTIONS[k], '=');
    }
    InlineFrom(arg, 0, option);
  }

  lemma {:induction false} InlineFrom(arg: string, k: nat, option: string)
    requires k <= |WSL_OPTIONS| && option in WSL_OPTIONS[k..] && StartsWith(arg, option + "=")
    requires forall j :: 0 <= j < |WSL_OPTIONS| ==> arg != WSL_OPTIONS[j]
    ensures ClassifyFrom(arg, k) == Inline
    decreases |WSL_OPTIONS| - k
  {
    var o := WSL_OPTIONS[k];
    assert StartsWith(o, "--");
    if !StartsWith(arg, o + "=") {
      assert o != option;
      assert WSL_OPTIONS[k..] == [o] + WSL_OPTIONS[k + 1..];
      InlineFrom(arg, k + 1, option);
    }
  }

  /** `rmake_py`: the relative path of the rmake program with forward slashes,
      given a `./` when it has no slash at all. */
  function RmakeProgram(relative: string): (p: string)
    ensures Contains(p, '/')
  {
    var q := ReplaceChar(relative, '\\', '/');
    if Contains(q, '/') then q
    else
      var p := "./" + q;
      assert p[1] == '/';
      p
  }

  /** The result of `wsl_main`: the command line it passes to `wsl.exe`, or
      exit code 1 for a missing option value. */
  datatype WslLaunch = Launch(argv: seq<string>) | WslError(code: int, option: string)

  const WSL_PREFIX: seq<string> := ["wsl.exe", "--shell-type", "login"]

  function WslMain(args: seq<string>, relativeProgram: string): (r: WslLaunch)
    ensures r.WslError? ==> r.code == 1
    ensures r.Launch? ==> |r.argv| >= 4 && r.argv[..3] == WSL_PREFIX
  {
    match SplitArgs(args)
    case MissingValue(o) => WslError(1, o)
    case Parted(w, rm) => Launch(WSL_PREFIX + w + [RmakeProgram(relativeProgram)] + rm)
  }

  /** `wsl.exe` gets its own options first, then the rmake program (always
      with a slash, so the shell does not search `PATH`), then rmake's
      arguments in their order. */
  lemma WslMainCommand(args: seq<string>, relativeProgram: string)
    ensures SplitArgs(args).MissingValue? ==> WslMain(args, relativeProgram) == WslError(1, SplitArgs(args).option)
    ensures SplitArgs(args).Parted? ==>
              var w := SplitArgs(args).wsl;
              var rest := SplitArgs(args).rmake;
              var argv := WslMain(args, relativeProgram).argv;
              WslMain(args, relativeProgram).Launch? && |argv| == 4 + |w| + |rest|
              && argv[3..3 + |w|] == w && Contains(argv[3 + |w|], '/') && argv[4 + |w|..] == rest
              && IsSubsequence(rest, args)
  {
    if SplitArgs(args).Parted? {
      RmakeArgsKeepOrder(args);
    }
  }
}
