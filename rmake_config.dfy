/** The values `RsyncMake.run` derives from its arguments, and the meaning of
    its command loop: how each command is classified, which actions it
    records and how the two synchronisation flags evolve. */
module RmakeConfig {
  import opened Text
  import opened FileSystem
  import RmakeLaunch

  const RSYNC_ARGS: seq<string> := ["-av", "--delete", "--mkpath", "--exclude=.git"]
  const MAKE_TARGETS: seq<string> := ["cargo", "cargo-*", "clean", "clean-*", "cmake", "cmake-*", "update-libs"]
  const RMAKE_INCLUDES := ".rmake-includes"
  const RMAKE_EXCLUDES := ".rmake-excludes"

  // dst_dir

  /** The remote directory for `src` without `--dst-dir`: `remoteRoot`
      followed by what comes after the first `/<basename(remoteRoot)>` that
      is followed by `/`; nothing when there is no such directory. */
  function DstFor(remoteRoot: string, src: string): (r: Option<string>)
    ensures r.Some? ==> StartsWith(r.value, remoteRoot)
  {
    var base := Basename(remoteRoot);
    var idx := Find(src, "/" + base + "/");
    if idx < 0 then None
    else
      assert OccursAt(src, "/" + base + "/", idx);
      Some(remoteRoot + src[idx + |base| + 1..])
  }

  /** Without a directory named like the remote root among the ancestors of
      `src` there is no default; otherwise the remote directory is the root
      followed by the path below the first such directory, which starts with
      `/`. */
  lemma DstDerivation(remoteRoot: string, src: string)
    ensures var base := Basename(remoteRoot);
            DstFor(remoteRoot, src).None? <==> forall j :: !OccursAt(src, "/" + base + "/", j)
    ensures var base := Basename(remoteRoot);
            var idx := Find(src, "/" + base + "/");
            DstFor(remoteRoot, src).Some? ==>
              idx >= 0 && (forall j :: 0 <= j < idx ==> !OccursAt(src, "/" + base + "/", j))
              && src[idx..idx + |base| + 1] == "/" + base
              && DstFor(remoteRoot, src).value == remoteRoot + src[idx + |base| + 1..]
              && src[idx + |base| + 1..][0] == '/'
  {
    var base := Basename(remoteRoot);
    var sub := "/" + base + "/";
    var idx := Find(src, sub);
    if idx >= 0 {
      assert src[idx..idx + |sub|] == sub;
      assert src[idx..idx + |base| + 1] == src[idx..idx + |sub|][..|base| + 1];
      assert src[idx + |base| + 1..][0] == src[idx..idx + |sub|][|base| + 1];
    }
  }

  // rsync_args

  /** Some argument starts with `prefix`. */
  predicate HasPrefixed(args: seq<string>, prefix: string) {
    exists i :: 0 <= i < |args| && StartsWith(args[i], prefix)
  }

  /** The `--include-from=` default: the workspace's `.rmake-includes` when
      the user gave none and the file exists. */
  function IncludeDefault(args: seq<string>, src: string, fs: Fs): seq<string> {
    var includeFrom := Join(src, RMAKE_INCLUDES);
    if !HasPrefixed(args, "--include-from=") && IsFile(fs, includeFrom) then ["--include-from=" + includeFrom] else []
  }

  /** The exclude file: `.rmake-excludes`, else `.gitignore`, else none. */
  function ExcludeFile(src: string, fs: Fs): string {
    if IsFile(fs, Join(src, RMAKE_EXCLUDES)) then Join(src, RMAKE_EXCLUDES)
    else if IsFile(fs, Join(src, ".gitignore")) then Join(src, ".gitignore")
    else ""
  }

  function ExcludeDefault(args: seq<string>, src: string, fs: Fs): seq<string> {
    if !HasPrefixed(args, "--exclude-from=") && ExcludeFile(src, fs) != "" then ["--exclude-from=" + ExcludeFile(src, fs)] else []
  }

  /** `rsync_args` after `run`: the given arguments, then the defaults. */
  function RsyncArgsFor(args: seq<string>, src: string, fs: Fs): seq<string> {
    var withInclude := args + IncludeDefault(args, src, fs);
    withInclude + ExcludeDefault(withInclude, src, fs)
  }

  /** At most one default of each kind is added, after the given arguments:
      an include file only when the user named none and it exists, an
      exclude file only when the user named none, `.rmake-excludes` before
      `.gitignore`. */
  lemma RsyncDefaults(args: seq<string>, src: string, fs: Fs)
    ensures var r := RsyncArgsFor(args, src, fs);
            var inc := IncludeDefault(args, src, fs);
            var exc := ExcludeDefault(args, src, fs);
            r == args + inc + exc && |inc| <= 1 && |exc| <= 1
    ensures |IncludeDefault(args, src, fs)| == 1 <==>
              !HasPrefixed(args, "--include-from=") && IsFile(fs, Join(src, RMAKE_INCLUDES))
    ensures HasPrefixed(args, "--exclude-from=") ==> ExcludeDefault(args, src, fs) == []
    ensures !HasPrefixed(args, "--exclude-from=") ==>
              ExcludeDefault(args, src, fs) ==
                if IsFile(fs, Join(src, RMAKE_EXCLUDES)) then ["--exclude-from=" + Join(src, RMAKE_EXCLUDES)]
                else if IsFile(fs, Join(src, ".gitignore")) then ["--exclude-from=" + Join(src, ".gitignore")]
                else []
  {
    var inc := IncludeDefault(args, src, fs);
    var w := args + inc;
    assert HasPrefixed(w, "--exclude-from=") <==> HasPrefixed(args, "--exclude-from=") by {
      if inc != [] {
        assert w[|args|] == inc[0];
        assert !StartsWith(inc[0], "--exclude-from=") by {
          assert inc[0][2] != "--exclude-from="[2];
        }
        forall i | 0 <= i < |args| ensures w[i] == args[i] {
        }
      } else {
        assert w == args;
      }
    }
    JoinLength(src, RMAKE_EXCLUDES);
    JoinLength(src, ".gitignore");
  }

  lemma JoinLength(a: string, b: string)
    ensures |Join(a, b)| >= |b|
  {
  }

  // commands and make_vars

  /** The arguments without `=`, in order. */
  function NonAssignments(cs: seq<string>): (r: seq<string>)
    ensures forall i :: 0 <= i < |r| ==> !Contains(r[i], '=')
    decreases |cs|
  {
    if cs == [] then []
    else (if Contains(cs[0], '=') then [] else [cs[0]]) + NonAssignments(cs[1..])
  }

  /** The arguments with `=`, in order: the make variables. */
  function Assignments(cs: seq<string>): (r: seq<string>)
    ensures forall i :: 0 <= i < |r| ==> Contains(r[i], '=')
    decreases |cs|
  {
    if cs == [] then []
    else (if Contains(cs[0], '=') then [cs[0]] else []) + Assignments(cs[1..])
  }

  /** `commands` after `run`: the non-assignments appended, or `build` when
      there are no commands at all. */
  function CommandsFor(given: seq<string>, cs: seq<string>): seq<string> {
    var c := given + NonAssignments(cs);
    if c == [] then ["build"] else c
  }

  /** Every argument is either a command or a make variable; both keep their
      order. */
  lemma {:induction false} CommandsPartition(cs: seq<string>)
    ensures |NonAssignments(cs)| + |Assignments(cs)| == |cs|
    ensures RmakeLaunch.IsSubsequence(NonAssignments(cs), cs)
    ensures RmakeLaunch.IsSubsequence(Assignments(cs), cs)
    decreases |cs|
  {
    if cs != [] {
      CommandsPartition(cs[1..]);
      var n := NonAssignments(cs[1..]);
      var a := Assignments(cs[1..]);
      if Contains(cs[0], '=') {
        assert NonAssignments(cs) == n;
        assert Assignments(cs) == [cs[0]] + a;
        assert ([cs[0]] + a)[1..] == a;
        RmakeLaunch.SkipOne(n, cs);
      } else {
        assert NonAssignments(cs) == [cs[0]] + n;
        assert Assignments(cs) == a;
        assert ([cs[0]] + n)[1..] == n;
        RmakeLaunch.SkipOne(a, cs);
      }
    }
  }

  /** With no command given, the only command is `build`; it is a make
      target for every target list. */
  lemma DefaultCommand(cs: seq<string>, targets: seq<string>)
    requires forall i :: 0 <= i < |cs| ==> Contains(cs[i], '=')
    ensures CommandsFor([], cs) == ["build"]
    ensures IsMakeTarget(targets, "build")
  {
    NoCommands(cs);
    LiteralMatch("build", "build");
    assert Alternatives(targets)[0] == "build";
  }

  lemma {:induction false} NoCommands(cs: seq<string>)
    requires forall i :: 0 <= i < |cs| ==> Contains(cs[i], '=')
    ensures NonAssignments(cs) == []
    decreases |cs|
  {
    if cs != [] {
      assert Contains(cs[0], '=');
      assert forall i :: 0 <= i < |cs[1..]| ==> cs[1..][i] == cs[i + 1];
      NoCommands(cs[1..]);
    }
  }

  // make targets

  /** Python's `re.match` of one alternative, written with `*` for `.*`: a
      `*` matches any run of characters other than a newline, every other
      character matches itself. */
  function WildMatch(p: string, s: string): bool
    decreases |p| + |s|
  {
    if p == [] then s == []
    else if p[0] == '*' then WildMatch(p[1..], s) || (s != [] && s[0] != '\n' && WildMatch(p, s[1..]))
    else s != [] && s[0] == p[0] && WildMatch(p[1..], s[1..])
  }

  /** The alternatives of `^(?:build|<targets joined by |>)$`: with no
      targets the pattern ends in an empty alternative. */
  function Alternatives(targets: seq<string>): (r: seq<string>)
    ensures |r| >= 2 && r[0] == "build"
  {
    ["build"] + (if targets == [] then [""] else targets)
  }

  /** `$` matches at the end and before one final newline. */
  predicate MatchesAnchored(p: string, c: string) {
    WildMatch(p, c) || (EndsWith(c, "\n") && WildMatch(p, c[..|c| - 1]))
  }

  predicate IsMakeTarget(targets: seq<string>, c: string) {
    var alts := Alternatives(targets);
    exists i :: 0 <= i < |alts| && MatchesAnchored(alts[i], c)
  }

  /** Without `*`, an alternative matches only itself. */
  lemma {:induction false} LiteralMatch(p: string, s: string)
    requires !Contains(p, '*')
    ensures WildMatch(p, s) <==> p == s
    decreases |p| + |s|
  {
    if p != [] {
      assert p[0] != '*';
      assert !Contains(p[1..], '*') by {
        forall i | 0 <= i < |p[1..]| ensures p[1..][i] != '*' { assert p[1..][i] == p[i + 1]; }
      }
      if s != [] {
        LiteralMatch(p[1..], s[1..]);
        if s[0] == p[0] && p[1..] == s[1..] {
          assert p == [p[0]] + p[1..] && s == [s[0]] + s[1..];
        }
      }
    }
  }

  /** `<prefix>*` matches the prefix followed by any text without a
      newline. */
  lemma {:induction false} StarSuffix(prefix: string, rest: string)
    requires !Contains(prefix, '*') && !Contains(rest, '\n')
    ensures WildMatch(prefix + "*", prefix + rest)
    decreases |prefix|
  {
    if prefix == [] {
      assert "" + "*" == "*" && "" + rest == rest;
      StarAny(rest);
    } else {
      assert (prefix + "*")[0] == prefix[0] && (prefix + rest)[0] == prefix[0];
      assert (prefix + "*")[1..] == prefix[1..] + "*";
      assert (prefix + rest)[1..] == prefix[1..] + rest;
      assert !Contains(prefix[1..], '*') by {
        forall i | 0 <= i < |prefix[1..]| ensures prefix[1..][i] != '*' { assert prefix[1..][i] == prefix[i + 1]; }
      }
      StarSuffix(prefix[1..], rest);
    }
  }

  lemma {:induction false} StarAny(rest: string)
    requires !Contains(rest, '\n')
    ensures WildMatch("*", rest)
    decreases |rest|
  {
    if rest != [] {
      assert !Contains(rest[1..], '\n') by {
        forall i | 0 <= i < |rest[1..]| ensures rest[1..][i] != '\n' { assert rest[1..][i] == rest[i + 1]; }
      }
      StarAny(rest[1..]);
      assert rest[0] != '\n';
    } else {
      assert "*"[1..] == [];
    }
  }

  /** `cmake-release` is a default make target (through `cmake-*`). */
  lemma CmakeVariant(rest: string)
    requires !Contains(rest, '\n')
    ensures IsMakeTarget(MAKE_TARGETS, "cmake-" + rest)
  {
    assert !Contains("cmake-", '*');
    StarSuffix("cmake-", rest);
    assert "cmake-" + "*" == "cmake-*";
    assert Alternatives(MAKE_TARGETS)[6] == "cmake-*";
    assert MatchesAnchored(Alternatives(MAKE_TARGETS)[6], "cmake-" + rest);
  }

  // the command loop

  /** The side effects the loop records in order: the git, rsync and make
      work and the calls into the user object. */
  datatype Action =
    | Checkout(force: bool)
    | RemoveClone(dir: string)
    | SyncForwardHook
    | SyncBackwardHook
    | Exec(dir: string, argv: seq<string>)
    | UserCommand(name: string)
    | Make(argv: seq<string>)

  /** How a command is handled, in the order `run` tries. */
  datatype Kind = GitKind(force: bool) | RemoveKind | RsyncKind | RsyncBackKind | ExecKind | HookKind | MakeKind | UnknownKind

  /** `RmakeUserBase.exec_command`: the user object's answer, -1 for a
      command it does not handle. */
  function HookResult(hooks: map<string, int>, c: string): int {
    if c in hooks then hooks[c] else -1
  }

  const BUILTINS: seq<string> := ["clone", "pull", "checkout", "remove-git", "rsync", "rsync-back", "exec"]

  function KindOf(c: string, force: bool, hooks: map<string, int>, targets: seq<string>): Kind {
    if c == "clone" || c == "pull" then GitKind(true)
    else if c == "checkout" then GitKind(force)
    else if c == "remove-git" then RemoveKind
    else if c == "rsync" then RsyncKind
    else if c == "rsync-back" then RsyncBackKind
    else if c == "exec" then ExecKind
    else if HookResult(hooks, c) != -1 then HookKind
    else if IsMakeTarget(targets, c) then MakeKind
    else UnknownKind
  }

  /** Built-in names are never offered to the user object; the user object
      is asked before the make targets, and -1 passes the command on. */
  lemma HookPrecedence(c: string, force: bool, hooks: map<string, int>, targets: seq<string>)
    ensures c in BUILTINS ==> KindOf(c, force, hooks, targets) !in {HookKind, MakeKind, UnknownKind}
    ensures c !in BUILTINS && HookResult(hooks, c) != -1 ==> KindOf(c, force, hooks, targets) == HookKind
    ensures c !in BUILTINS && HookResult(hooks, c) == -1 ==>
              KindOf(c, force, hooks, targets) == if IsMakeTarget(targets, c) then MakeKind else UnknownKind
  {
  }

  /** What the loop reads: `-f`, the remote directory, the `exec` arguments,
      the make variables, the make targets and the user object's answers. */
  datatype Config = Config(force: bool, dst: string, execArgs: seq<string>, makeVars: seq<string>,
                           targets: seq<string>, hooks: map<string, int>)

  /** `has_synced_forward`, `need_sync_backward` and the actions so far. */
  datatype Loop = Loop(synced: bool, back: bool, trace: seq<Action>)

  /** `RsyncMake.sync_forward`: the user's forward sync, once. */
  function Forward(s: Loop): (r: Loop)
    ensures r.synced && r.back == s.back
  {
    if s.synced then s else Loop(true, s.back, s.trace + [SyncForwardHook])
  }

  function Record(s: Loop, a: Action): Loop {
    s.(trace := s.trace + [a])
  }

  /** One command of the loop; nothing for an unknown command. */
  function StepOf(cfg: Config, s: Loop, c: string): Option<Loop> {
    match KindOf(c, cfg.force, cfg.hooks, cfg.targets)
    case GitKind(f) => Some(Record(s, Checkout(f)))
    case RemoveKind => Some(Record(s, RemoveClone(cfg.dst)))
    case RsyncKind => Some(Forward(s))
    case RsyncBackKind => Some(Record(s, SyncBackwardHook))
    case ExecKind => Some(Record(s, Exec(cfg.dst, cfg.execArgs)))
    case HookKind => Some(Record(s, UserCommand(c)))
    case MakeKind =>
      var made := Record(Forward(s), Make(["make", c] + cfg.makeVars));
      Some(if Find(c, "clean") < 0 then made.(back := true) else made)
    case UnknownKind => None
  }

  datatype LoopEnd = Finished(s: Loop) | Stopped(s: Loop, command: string)

  /** The loop over `commands`, stopping at the first unknown one. */
  function RunLoop(cfg: Config, s: Loop, cmds: seq<string>): LoopEnd
    decreases |cmds|
  {
    if cmds == [] then Finished(s)
    else
      match StepOf(cfg, s, cmds[0])
      case None => Stopped(s, cmds[0])
      case Some(s') => RunLoop(cfg, s', cmds[1..])
  }

  function EndState(e: LoopEnd): Loop {
    match e
    case Finished(s) => s
    case Stopped(s, _) => s
  }

  /** The number of forward syncs in a trace. */
  function Forwards(t: seq<Action>): nat
    decreases |t|
  {
    if t == [] then 0 else Forwards(t[..|t| - 1]) + (if t[|t| - 1] == SyncForwardHook then 1 else 0)
  }

  lemma ForwardsAppend(t: seq<Action>, a: Action)
    ensures Forwards(t + [a]) == Forwards(t) + (if a == SyncForwardHook then 1 else 0)
  {
    assert (t + [a])[..|t|] == t;
  }

  /** One command adds a forward sync only when none has happened yet. */
  lemma StepForwards(cfg: Config, s: Loop, c: string)
    requires StepOf(cfg, s, c).Some?
    ensures var s' := StepOf(cfg, s, c).value;
            (s.synced ==> s'.synced)
            && Forwards(s'.trace) == Forwards(s.trace) + (if s'.synced && !s.synced then 1 else 0)
            && s.trace <= s'.trace
  {
    var f := Forward(s);
    if !s.synced {
      ForwardsAppend(s.trace, SyncForwardHook);
    }
    assert Forwards(f.trace) == Forwards(s.trace) + (if f.synced && !s.synced then 1 else 0);
    match KindOf(c, cfg.force, cfg.hooks, cfg.targets)
    case GitKind(fo) => ForwardsAppend(s.trace, Checkout(fo));
    case RemoveKind => ForwardsAppend(s.trace, RemoveClone(cfg.dst));
    case RsyncKind =>
    case RsyncBackKind => ForwardsAppend(s.trace, SyncBackwardHook);
    case ExecKind => ForwardsAppend(s.trace, Exec(cfg.dst, cfg.execArgs));
    case HookKind => ForwardsAppend(s.trace, UserCommand(c));
    case MakeKind => ForwardsAppend(f.trace, Make(["make", c] + cfg.makeVars));
  }

  /** `user.sync_forward` runs at most once in a loop, and not at all when
      it already ran. */
  lemma {:induction false} ForwardAtMostOnce(cfg: Config, s: Loop, cmds: seq<string>)
    ensures var e := EndState(RunLoop(cfg, s, cmds));
            Forwards(e.trace) == Forwards(s.trace) + (if e.synced && !s.synced then 1 else 0)
            && (s.synced ==> e.synced) && s.trace <= e.trace
    decreases |cmds|
  {
    if cmds != [] {
      var st := StepOf(cfg, s, cmds[0]);
      if st.Some? {
        StepForwards(cfg, s, cmds[0]);
        ForwardAtMostOnce(cfg, st.value, cmds[1..]);
      }
    }
  }

  /** A make target that does not mention `clean`. */
  predicate SetsBack(cfg: Config, c: string) {
    KindOf(c, cfg.force, cfg.hooks, cfg.targets) == MakeKind && Find(c, "clean") < 0
  }

  /** After a complete loop the backward-sync flag is set exactly when it
      was set before or some command was a make target without `clean`. */
  lemma {:induction false} BackFlag(cfg: Config, s: Loop, cmds: seq<string>)
    requires RunLoop(cfg, s, cmds).Finished?
    ensures RunLoop(cfg, s, cmds).s.back <==> s.back || exists i :: 0 <= i < |cmds| && SetsBack(cfg, cmds[i])
    decreases |cmds|
  {
    if cmds != [] {
      var s' := StepOf(cfg, s, cmds[0]).value;
      assert s'.back == (s.back || SetsBack(cfg, cmds[0]));
      BackFlag(cfg, s', cmds[1..]);
      var e := RunLoop(cfg, s, cmds).s;
      if e.back && !s.back && !SetsBack(cfg, cmds[0]) {
        var i :| 0 <= i < |cmds[1..]| && SetsBack(cfg, cmds[1..][i]);
        assert cmds[i + 1] == cmds[1..][i];
      }
      if exists i :: 0 <= i < |cmds| && SetsBack(cfg, cmds[i]) {
        var i :| 0 <= i < |cmds| && SetsBack(cfg, cmds[i]);
        if i > 0 { assert cmds[1..][i - 1] == cmds[i]; }
      }
    }
  }

  /** The loop stops only at a command it cannot classify, and then at the
      first such command. */
  lemma {:induction false} StopsAtUnknown(cfg: Config, s: Loop, cmds: seq<string>)
    requires RunLoop(cfg, s, cmds).Stopped?
    ensures var c := RunLoop(cfg, s, cmds).command;
            exists i :: 0 <= i < |cmds| && cmds[i] == c
                      && KindOf(c, cfg.force, cfg.hooks, cfg.targets) == UnknownKind
                      && forall j :: 0 <= j < i ==> KindOf(cmds[j], cfg.force, cfg.hooks, cfg.targets) != UnknownKind
    decreases |cmds|
  {
    var st := StepOf(cfg, s, cmds[0]);
    if st.None? {
      assert cmds[0] == RunLoop(cfg, s, cmds).command;
    } else {
      StopsAtUnknown(cfg, st.value, cmds[1..]);
      var c := RunLoop(cfg, s, cmds).command;
      var i :| 0 <= i < |cmds[1..]| && cmds[1..][i] == c
               && KindOf(c, cfg.force, cfg.hooks, cfg.targets) == UnknownKind
               && forall j :: 0 <= j < i ==> KindOf(cmds[1..][j], cfg.force, cfg.hooks, cfg.targets) != UnknownKind;
      assert cmds[i + 1] == c;
      forall j | 0 <= j < i + 1 ensures KindOf(cmds[j], cfg.force, cfg.hooks, cfg.targets) != UnknownKind {
        if j > 0 { assert cmds[j] == cmds[1..][j - 1]; }
      }
    }
  }

  /** Every `make` call is `make <target>` followed by the make variables. */
  predicate MakesUse(t: seq<Action>, vars: seq<string>) {
    forall i :: 0 <= i < |t| && t[i].Make? ==> |t[i].argv| >= 2 && t[i].argv[0] == "make" && t[i].argv[2..] == vars
  }

  lemma MakesUseAppend(a: seq<Action>, b: seq<Action>, vars: seq<string>)
    requires MakesUse(a, vars) && MakesUse(b, vars)
    ensures MakesUse(a + b, vars)
  {
    forall i | 0 <= i < |a + b| && (a + b)[i].Make?
      ensures |(a + b)[i].argv| >= 2 && (a + b)[i].argv[0] == "make" && (a + b)[i].argv[2..] == vars
    {
      if i < |a| { assert (a + b)[i] == a[i]; } else { assert (a + b)[i] == b[i - |a|]; }
    }
  }

  lemma StepMakes(cfg: Config, s: Loop, c: string)
    requires MakesUse(s.trace, cfg.makeVars) && StepOf(cfg, s, c).Some?
    ensures MakesUse(StepOf(cfg, s, c).value.trace, cfg.makeVars)
  {
    var f := Forward(s);
    MakesUseAppend(s.trace, if s.synced then [] else [SyncForwardHook], cfg.makeVars);
    assert f.trace == s.trace + (if s.synced then [] else [SyncForwardHook]);
    match KindOf(c, cfg.force, cfg.hooks, cfg.targets)
    case GitKind(fo) => MakesUseAppend(s.trace, [Checkout(fo)], cfg.makeVars);
    case RemoveKind => MakesUseAppend(s.trace, [RemoveClone(cfg.dst)], cfg.makeVars);
    case RsyncKind =>
    case RsyncBackKind => MakesUseAppend(s.trace, [SyncBackwardHook], cfg.makeVars);
    case ExecKind => MakesUseAppend(s.trace, [Exec(cfg.dst, cfg.execArgs)], cfg.makeVars);
    case HookKind => MakesUseAppend(s.trace, [UserCommand(c)], cfg.makeVars);
    case MakeKind =>
      var m := Make(["make", c] + cfg.makeVars);
      assert ([m][0]).argv[2..] == cfg.makeVars;
      MakesUseAppend(f.trace, [m], cfg.makeVars);
  }

  /** Every `make` call the loop records is `make <target>` followed by the
      make variables. */
  lemma {:induction false} MakeCalls(cfg: Config, s: Loop, cmds: seq<string>)
    requires MakesUse(s.trace, cfg.makeVars)
    ensures MakesUse(EndState(RunLoop(cfg, s, cmds)).trace, cfg.makeVars)
    decreases |cmds|
  {
    if cmds != [] {
      var st := StepOf(cfg, s, cmds[0]);
      if st.Some? {
        StepMakes(cfg, s, cmds[0]);
        MakeCalls(cfg, st.value, cmds[1..]);
      }
    }
  }
}
