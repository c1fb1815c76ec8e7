/** `RsyncMake`: the object that derives the rsync configuration from the
    command line and runs the commands in order, keeping track of whether the
    sources were synchronised forward and whether the generated files must be
    synchronised back at the end. The git, rsync and make work it starts is
    recorded as a trace of actions. */
module Rmake {
  import opened Text
  import opened FileSystem
  import opened RmakeConfig
  import RmakeLaunch

  /** What `run` reads from the parsed command line. */
  datatype Args = Args(srcDir: string, dstDir: string, rsyncOptions: seq<string>, commands: seq<string>, force: bool)

  /** The reasons `run` exits through `error`, with code 1. */
  datatype RunError =
    | NoGitHome(srcDir: string, base: string)
    | NotADirectory(dir: string)
    | Nested(srcDir: string, dstDir: string)
    | UnknownCommand(command: string)

  /** The fields `run` only reads. */
  datatype Setup = Setup(remoteRoot: string, workspaceDir: string, makeTargets: seq<string>,
                         execCmdArgs: seq<string>, userCommands: map<string, int>)

  /** The fields `run` sets. */
  datatype State = State(srcDir: string, dstDir: string, rsyncArgs: seq<string>, commands: seq<string>,
                         makeVars: seq<string>, loop: Loop)

  datatype RunResult = RunResult(state: State, status: int, error: Option<RunError>)

  /** The sync back at the end of `run`, when the flag is set. */
  function Finish(s: Loop): Loop {
    if s.back then Record(s, SyncBackwardHook) else s
  }

  /** `src_dir`: the one given, else the workspace. */
  function SrcFor(su: Setup, args: Args): string {
    if args.srcDir != "" then args.srcDir else su.workspaceDir
  }

  /** `dst_dir`: the one given, else derived from the remote root. */
  function DstOf(su: Setup, args: Args): Option<string> {
    if args.dstDir != "" then Some(args.dstDir) else DstFor(su.remoteRoot, SrcFor(su, args))
  }

  /** The fields once `run` has derived them from the arguments. */
  function Derived(st: State, args: Args, fs: Fs, src: string, dst: string): State {
    State(src, dst, RsyncArgsFor(st.rsyncArgs + args.rsyncOptions, src, fs),
          CommandsFor(st.commands, args.commands), st.makeVars + Assignments(args.commands), st.loop)
  }

  /** The checks on the two directories before any command runs. */
  function CheckDirs(fs: Fs, src: string, dst: string): Option<RunError> {
    if !IsDir(fs, src) then Some(NotADirectory(src))
    else if StartsWith(src, dst) || StartsWith(dst, src) then Some(Nested(src, dst))
    else None
  }

  /** The loop configuration of a run with fields `d`. */
  function ConfigOf(su: Setup, args: Args, d: State): Config {
    Config(args.force, d.dstDir, su.execCmdArgs, d.makeVars, su.makeTargets, su.userCommands)
  }

  /** The command that stopped the loop, if any. */
  function StopOf(e: LoopEnd): Option<string> {
    if e.Stopped? then Some(e.command) else None
  }

  /** The command loop and the final sync back. */
  function CommandsRun(su: Setup, args: Args, d: State): RunResult {
    var e := RunLoop(ConfigOf(su, args, d), d.loop, d.commands);
    if e.Stopped? then RunResult(d.(loop := e.s), 1, Some(UnknownCommand(e.command)))
    else RunResult(d.(loop := Finish(e.s)), 0, None)
  }

  /** `RsyncMake.run` on the object's fields. */
  function RunSpec(su: Setup, st: State, args: Args, fs: Fs): RunResult {
    var src := SrcFor(su, args);
    var dst := DstOf(su, args);
    if dst.None? then RunResult(st.(srcDir := src), 1, Some(NoGitHome(src, Basename(su.remoteRoot))))
    else
      var d := Derived(st, args, fs, src, dst.value);
      var chk := CheckDirs(fs, src, dst.value);
      if chk.Some? then RunResult(d, 1, chk) else CommandsRun(su, args, d)
  }

  class RsyncMake {
    var remoteRoot: string
    var srcDir: string
    var dstDir: string
    var rsyncArgs: seq<string>
    var makeTargets: seq<string>
    var commands: seq<string>
    var makeVars: seq<string>
    var execCmdArgs: seq<string>
    var workspaceDir: string
    var hasSyncedForward: bool
    var needSyncBackward: bool
    /** The actions started so far. */
    var trace: seq<Action>
    /** The answers of the user object's `exec_command`; a command it does
        not list gets -1, as from `RmakeUserBase`. */
    var userCommands: map<string, int>

    function Settings(): Setup
      reads this
    {
      Setup(remoteRoot, workspaceDir, makeTargets, execCmdArgs, userCommands)
    }

    function Current(): State
      reads this
    {
      State(srcDir, dstDir, rsyncArgs, commands, makeVars, Loop(hasSyncedForward, needSyncBackward, trace))
    }

    function Cfg(force: bool): Config
      reads this
    {
      Config(force, dstDir, execCmdArgs, makeVars, makeTargets, userCommands)
    }

    /** `__init__`: the defaults, and the workspace found from the script's
        directory. */
    constructor(root: string, fs: Fs, scriptDir: string, user: map<string, int>)
      ensures Settings() == Setup(root, RmakeLaunch.WorkspaceFrom(fs, scriptDir, scriptDir), MAKE_TARGETS, [], user)
      ensures Current() == State("", "", RSYNC_ARGS, [], [], Loop(false, false, []))
    {
      remoteRoot := root;
      srcDir := "";
      dstDir := "";
      rsyncArgs := RSYNC_ARGS;
      makeTargets := MAKE_TARGETS;
      commands := [];
      makeVars := [];
      execCmdArgs := [];
      userCommands := user;
      hasSyncedForward := false;
      needSyncBackward := false;
      trace := [];
      var w := RmakeLaunch.GetWorkspaceDir(fs, scriptDir);
      workspaceDir := w;
    }

    method Log(a: Action)
      modifies this
      ensures Settings() == old(Settings())
      ensures Current() == old(Current()).(loop := Record(old(Current()).loop, a))
    {
      trace := trace + [a];
    }

    /** `sync_forward`: the user's forward sync, only the first time. */
    method SyncForward()
      modifies this
      ensures Settings() == old(Settings())
      ensures Current() == old(Current()).(loop := Forward(old(Current()).loop))
    {
      if !hasSyncedForward {
        trace := trace + [SyncForwardHook];
        hasSyncedForward := true;
      }
    }

    /** `sync_backward`: only sets the flag. */
    method SyncBackward()
      modifies this
      ensures Settings() == old(Settings())
      ensures Current() == old(Current()).(loop := old(Current()).loop.(back := true))
    {
      needSyncBackward := true;
    }

    /** `run_make`: `make <target>` with the make variables. */
    method RunMake(target: string)
      modifies this
      ensures Settings() == old(Settings())
      ensures Current() == old(Current()).(loop := Record(old(Current()).loop, Make(["make", target] + old(makeVars))))
    {
      var makeArgs := ["make", target];
      makeArgs := makeArgs + makeVars;
      Log(Make(makeArgs));
    }

    /** One pass of the command loop in `run`; `false` for a command that
        nothing handles. */
    method RunCommand(command: string, force: bool) returns (known: bool)
      modifies this
      ensures Settings() == old(Settings())
      ensures var st := StepOf(old(Cfg(force)), old(Current()).loop, command);
              known == st.Some?
              && Current() == old(Current()).(loop := if st.Some? then st.value else old(Current()).loop)
    {
      known := true;
      if command == "clone" || command == "pull" {
        Log(Checkout(true));
      } else if command == "checkout" {
        Log(Checkout(force));
      } else if command == "remove-git" {
        Log(RemoveClone(dstDir));
      } else if command == "rsync" {
        SyncForward();
      } else if command == "rsync-back" {
        Log(SyncBackwardHook);
      } else if command == "exec" {
        Log(Exec(dstDir, execCmdArgs));
      } else if HookResult(userCommands, command) != -1 {
        Log(UserCommand(command));
      } else if IsMakeTarget(makeTargets, command) {
        SyncForward();
        RunMake(command);
        if Find(command, "clean") < 0 {
          SyncBackward();
        }
      } else {
        known := false;
      }
    }

    /** `rsync_args` after `run`: the user's options, then the default include
        and exclude files. */
    method DeriveRsyncArgs(options: seq<string>, fs: Fs)
      modifies this
      ensures Settings() == old(Settings())
      ensures Current() == old(Current()).(rsyncArgs := RsyncArgsFor(old(rsyncArgs) + options, old(srcDir), fs))
    {
      rsyncArgs := rsyncArgs + options;
      ghost var given := rsyncArgs;
      if !HasPrefixed(rsyncArgs, "--include-from=") {
        var includeFrom := Join(srcDir, RMAKE_INCLUDES);
        if IsFile(fs, includeFrom) {
          rsyncArgs := rsyncArgs + ["--include-from=" + includeFrom];
        }
      }
      assert rsyncArgs == given + IncludeDefault(given, srcDir, fs);
      ghost var withInclude := rsyncArgs;
      if !HasPrefixed(rsyncArgs, "--exclude-from=") {
        var excludeFrom := Join(srcDir, RMAKE_EXCLUDES);
        if !IsFile(fs, excludeFrom) {
          excludeFrom := Join(srcDir, ".gitignore");
          if !IsFile(fs, excludeFrom) {
            excludeFrom := "";
          }
        }
        assert excludeFrom == ExcludeFile(srcDir, fs);
        if excludeFrom != "" {
          rsyncArgs := rsyncArgs + ["--exclude-from=" + excludeFrom];
        }
      }
      assert rsyncArgs == withInclude + ExcludeDefault(withInclude, srcDir, fs);
    }

    /** `commands` and `make_vars` after `run`: the arguments without `=`
        (or `build`) and those with `=`. */
    method DeriveCommands(cs: seq<string>)
      modifies this
      ensures Settings() == old(Settings())
      ensures Current() == old(Current()).(commands := CommandsFor(old(commands), cs),
                                           makeVars := old(makeVars) + Assignments(cs))
    {
      commands := commands + NonAssignments(cs);
      if commands == [] {
        commands := commands + ["build"];
      }
      makeVars := makeVars + Assignments(cs);
    }

    /** The configuration part of `run`, up to the command loop. */
    method Prepare(args: Args, fs: Fs) returns (error: Option<RunError>)
      modifies this
      ensures Settings() == old(Settings())
      ensures var src := SrcFor(old(Settings()), args);
              var dst := DstOf(old(Settings()), args);
              if dst.None? then
                error == Some(NoGitHome(src, Basename(remoteRoot))) && Current() == old(Current()).(srcDir := src)
              else
                Current() == Derived(old(Current()), args, fs, src, dst.value) && error == CheckDirs(fs, src, dst.value)
    {
      srcDir := if args.srcDir != "" then args.srcDir else workspaceDir;
      if args.dstDir != "" {
        dstDir := args.dstDir;
      } else {
        var d := DstFor(remoteRoot, srcDir);
        if d.None? {
          return Some(NoGitHome(srcDir, Basename(remoteRoot)));
        }
        dstDir := d.value;
      }
      DeriveRsyncArgs(args.rsyncOptions, fs);
      DeriveCommands(args.commands);
      if !IsDir(fs, srcDir) {
        return Some(NotADirectory(srcDir));
      }
      if StartsWith(srcDir, dstDir) || StartsWith(dstDir, srcDir) {
        return Some(Nested(srcDir, dstDir));
      }
      return None;
    }

    /** The command loop of `run`: every command in order, up to the first
        one nothing handles, which is returned. */
    method RunCommands(force: bool) returns (unknown: Option<string>)
      modifies this
      ensures Settings() == old(Settings())
      ensures var e := RunLoop(old(Cfg(force)), old(Current()).loop, old(commands));
              unknown == StopOf(e) && Current() == old(Current()).(loop := e.s)
    {
      ghost var start := Current();
      ghost var cfg := Cfg(force);
      var i := 0;
      while i < |commands|
        invariant 0 <= i <= |commands|
        invariant Settings() == old(Settings()) && Cfg(force) == cfg
        invariant Current() == start.(loop := Current().loop)
        invariant RunLoop(cfg, Current().loop, commands[i..]) == RunLoop(cfg, start.loop, start.commands)
      {
        var command := commands[i];
        assert commands[i..][1..] == commands[i + 1..];
        var known := RunCommand(command, force);
        if !known {
          return Some(command);
        }
        i := i + 1;
      }
      return None;
    }

    /** `run`: derive the configuration, check it, run every command, and
        sync back at the end when a build asked for it. */
    method Run(args: Args, fs: Fs) returns (status: int, error: Option<RunError>)
      modifies this
      ensures Settings() == old(Settings())
      ensures RunResult(Current(), status, error) == RunSpec(old(Settings()), old(Current()), args, fs)
    {
      error := Prepare(args, fs);
      if error.Some? {
        return 1, error;
      }
      var unknown := RunCommands(args.force);
      if unknown.Some? {
        return 1, Some(UnknownCommand(unknown.value));
      }
      if needSyncBackward {
        Log(SyncBackwardHook);
      }
      return 0, None;
    }
  }

  // what run promises

  /** `run` exits with 0 exactly when there was no error, and with 1
      otherwise. */
  lemma RunStatus(su: Setup, st: State, args: Args, fs: Fs)
    ensures var r := RunSpec(su, st, args, fs);
            (r.status == 0 || r.status == 1) && (r.status == 0 <==> r.error.None?)
  {
  }

  /** Without `--dst-dir` and without an ancestor named like the remote root,
      `run` fails before it touches anything but the source directory. */
  lemma RunNeedsGitHome(su: Setup, st: State, args: Args, fs: Fs)
    requires args.dstDir == ""
    requires forall j :: !OccursAt(SrcFor(su, args), "/" + Basename(su.remoteRoot) + "/", j)
    ensures var r := RunSpec(su, st, args, fs);
            r.status == 1 && r.error == Some(NoGitHome(SrcFor(su, args), Basename(su.remoteRoot)))
            && r.state == st.(srcDir := SrcFor(su, args))
  {
    DstDerivation(su.remoteRoot, SrcFor(su, args));
  }

  /** Once the remote directory is known, `run` sets the configuration
      fields from the arguments: the rsync defaults after the user's options,
      the arguments without `=` as commands (or `build`) and those with `=`
      as make variables, all in order. */
  lemma RunDerivesFields(su: Setup, st: State, args: Args, fs: Fs)
    requires DstOf(su, args).Some?
    ensures var r := RunSpec(su, st, args, fs).state;
            var src := SrcFor(su, args);
            r.srcDir == src
            && r.dstDir == (if args.dstDir != "" then args.dstDir else DstFor(su.remoteRoot, src).value)
            && r.rsyncArgs == RsyncArgsFor(st.rsyncArgs + args.rsyncOptions, src, fs)
            && r.commands == CommandsFor(st.commands, args.commands)
            && r.makeVars == st.makeVars + Assignments(args.commands)
  {
  }

  /** A source that is not a directory, or a source and destination nested
      within each other, stop `run` before any command. */
  lemma RunChecksDirs(su: Setup, st: State, args: Args, fs: Fs)
    requires DstOf(su, args).Some?
    ensures var r := RunSpec(su, st, args, fs);
            var src := SrcFor(su, args);
            var dst := DstOf(su, args).value;
            (!IsDir(fs, src) ==> r.status == 1 && r.error == Some(NotADirectory(src)) && r.state.loop == st.loop)
            && (IsDir(fs, src) && (StartsWith(src, dst) || StartsWith(dst, src)) ==>
                 r.status == 1 && r.error == Some(Nested(src, dst)) && r.state.loop == st.loop)
  {
  }

  /** A run that gets to the commands runs the loop on the derived fields. */
  lemma RunReachesCommands(su: Setup, st: State, args: Args, fs: Fs)
    requires DstOf(su, args).Some?
    requires CheckDirs(fs, SrcFor(su, args), DstOf(su, args).value).None?
    ensures var d := Derived(st, args, fs, SrcFor(su, args), DstOf(su, args).value);
            RunSpec(su, st, args, fs) == CommandsRun(su, args, d)
  {
  }

  /** `user.sync_forward` runs at most once per run, and not at all when it
      ran before. */
  lemma RunForwardAtMostOnce(su: Setup, st: State, args: Args, fs: Fs)
    ensures var r := RunSpec(su, st, args, fs).state.loop;
            Forwards(r.trace) <= Forwards(st.loop.trace) + (if st.loop.synced then 0 else 1)
  {
    var dst := DstOf(su, args);
    if dst.Some? && CheckDirs(fs, SrcFor(su, args), dst.value).None? {
      var d := Derived(st, args, fs, SrcFor(su, args), dst.value);
      CommandsForward(su, args, d);
    }
  }

  lemma CommandsForward(su: Setup, args: Args, d: State)
    ensures Forwards(CommandsRun(su, args, d).state.loop.trace) <= Forwards(d.loop.trace) + (if d.loop.synced then 0 else 1)
  {
    var cfg := ConfigOf(su, args, d);
    ForwardAtMostOnce(cfg, d.loop, d.commands);
    var e := EndState(RunLoop(cfg, d.loop, d.commands));
    ForwardsAppend(e.trace, SyncBackwardHook);
  }

  /** A run that succeeds ends with one `user.sync_backward` exactly when the
      flag was set before or some command was a make target without
      `clean`. */
  lemma RunBackwardAtEnd(su: Setup, st: State, args: Args, fs: Fs)
    requires RunSpec(su, st, args, fs).status == 0
    ensures var r := RunSpec(su, st, args, fs).state;
            var cfg := ConfigOf(su, args, r);
            var e := EndState(RunLoop(cfg, st.loop, r.commands));
            r.loop.trace == e.trace + (if e.back then [SyncBackwardHook] else [])
            && (e.back <==> st.loop.back || exists i :: 0 <= i < |r.commands| && SetsBack(cfg, r.commands[i]))
  {
    var d := Derived(st, args, fs, SrcFor(su, args), DstOf(su, args).value);
    BackFlag(ConfigOf(su, args, d), st.loop, d.commands);
  }

  /** A run that stops at a command stops at the first one nothing handles,
      and does not sync back at the end. */
  lemma RunStopsAtUnknown(su: Setup, st: State, args: Args, fs: Fs)
    requires var r := RunSpec(su, st, args, fs); r.error.Some? && r.error.value.UnknownCommand?
    ensures var r := RunSpec(su, st, args, fs);
            var cfg := ConfigOf(su, args, r.state);
            var c := r.error.value.command;
            r.status == 1
            && r.state.loop == EndState(RunLoop(cfg, st.loop, r.state.commands))
            && exists i :: 0 <= i < |r.state.commands| && r.state.commands[i] == c
                         && KindOf(c, cfg.force, cfg.hooks, cfg.targets) == UnknownKind
  {
    var d := Derived(st, args, fs, SrcFor(su, args), DstOf(su, args).value);
    StopsAtUnknown(ConfigOf(su, args, d), st.loop, d.commands);
  }

  /** Every `make` started by a run gets the run's make variables. */
  lemma RunMakeArguments(su: Setup, st: State, args: Args, fs: Fs)
    requires MakesUse(st.loop.trace, st.makeVars + Assignments(args.commands))
    ensures MakesUse(RunSpec(su, st, args, fs).state.loop.trace, st.makeVars + Assignments(args.commands))
  {
    var dst := DstOf(su, args);
    if dst.Some? && CheckDirs(fs, SrcFor(su, args), dst.value).None? {
      var d := Derived(st, args, fs, SrcFor(su, args), dst.value);
      var cfg := ConfigOf(su, args, d);
      MakeCalls(cfg, d.loop, d.commands);
      var e := EndState(RunLoop(cfg, d.loop, d.commands));
      MakesUseAppend(e.trace, [SyncBackwardHook], cfg.makeVars);
    }
  }

  /** A fresh object given no commands builds: one forward sync, `make build`
      with the make variables, and the sync back at the end. */
  lemma FreshRunBuilds(su: Setup, args: Args, fs: Fs)
    requires forall i :: 0 <= i < |args.commands| ==> Contains(args.commands[i], '=')
    requires "build" !in su.userCommands
    requires RunSpec(su, State("", "", RSYNC_ARGS, [], [], Loop(false, false, [])), args, fs).status == 0
    ensures RunSpec(su, State("", "", RSYNC_ARGS, [], [], Loop(false, false, [])), args, fs).state.loop.trace
            == [SyncForwardHook, Make(["make", "build"] + Assignments(args.commands)), SyncBackwardHook]
  {
    var st := State("", "", RSYNC_ARGS, [], [], Loop(false, false, []));
    var dst := DstOf(su, args);
    assert dst.Some? && CheckDirs(fs, SrcFor(su, args), dst.value).None?;
    var d := Derived(st, args, fs, SrcFor(su, args), dst.value);
    RunReachesCommands(su, st, args, fs);
    DefaultCommand(args.commands, su.makeTargets);
    assert d.commands == ["build"];
    assert d.makeVars == Assignments(args.commands);
    var cfg := ConfigOf(su, args, d);
    BuildStep(cfg, d.loop);
    assert ["build"][1..] == [];
  }

  /** `build` is a make target that is no `clean`: it syncs forward, makes
      and sets the flag. */
  lemma BuildStep(cfg: Config, s: Loop)
    requires "build" !in cfg.hooks
    requires IsMakeTarget(cfg.targets, "build")
    ensures StepOf(cfg, s, "build") == Some(Record(Forward(s), Make(["make", "build"] + cfg.makeVars)).(back := true))
  {
    assert KindOf("build", cfg.force, cfg.hooks, cfg.targets) == MakeKind;
    assert Find("build", "clean") < 0 by {
      assert forall j :: !OccursAt("build", "clean", j);
    }
  }
}
