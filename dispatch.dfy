/** The command dispatch of `ShellCmd.main`: the command name, with `-`
    read as `_`, selects the method `run__<name>`; an empty or unknown name
    writes one message and gives EINVAL. */
module Dispatch {
  import opened Text
  import opened Runs

  /** The names of the `run__*` methods, in `dir()` order. */
  const CommandNames: seq<string> := [
    "cargo_exec", "cmpver", "cp", "cwd", "fix_symlink", "is_wsl_win_path",
    "mkdir", "mklink", "mv", "mydir", "ndk_root", "relpath", "rm", "rmdir",
    "timestamp", "touch", "upload", "win2wsl_path", "winreg", "wsl2win_path"]

  /** The method suffix a command name selects. */
  function MethodSuffix(command: string): (r: string)
    ensures |r| == |command|
    ensures !Contains(r, '-')
  {
    ReplaceChar(command, '-', '_')
  }

  datatype Selected = Runs(name: string) | Rejected(status: int, err: seq<Message>)

  /** `getattr(ShellCmd(...), 'run__' + command.replace('-', '_'))`, or the
      `AttributeError` branch. */
  function Select(command: string): (r: Selected)
    ensures r.Runs? <==> MethodSuffix(command) in CommandNames
    ensures r.Runs? ==> r.name == MethodSuffix(command)
    ensures r.Rejected? ==> r.status == EINVAL && |r.err| == 1
    ensures command == "" ==> r == Rejected(EINVAL, [MissingCommand])
  {
    var name := MethodSuffix(command);
    if name in CommandNames then Runs(name)
    else if command == "" then Rejected(EINVAL, [MissingCommand])
    else Rejected(EINVAL, [UnrecognizedCommand(command)])
  }

  /** Hyphens and underscores are interchangeable in command names. */
  lemma HyphenUnderscore(a: string, b: string)
    requires |a| == |b|
    requires forall i :: 0 <= i < |a| ==> a[i] == b[i] || (a[i] in "-_" && b[i] in "-_")
    ensures Select(a).Runs? <==> Select(b).Runs?
    ensures Select(a).Runs? ==> Select(a) == Select(b)
  {
    assert MethodSuffix(a) == MethodSuffix(b);
  }

  /** An unknown name is reported with its original spelling. */
  lemma UnknownCommandReported(command: string)
    requires command != "" && MethodSuffix(command) !in CommandNames
    ensures Select(command) == Rejected(EINVAL, [UnrecognizedCommand(command)])
    ensures Render(Select(command).err[0]) == "Unrecognized command \"" + command + "\""
  {
  }

  /** Every name `--list` prints is accepted as a command. */
  lemma ListedNamesAccepted(i: nat)
    requires i < |CommandNames|
    ensures Select(CommandNames[i]) == Runs(CommandNames[i])
  {
    var n := CommandNames[i];
    assert !Contains(n, '-');
    assert MethodSuffix(n) == n;
  }
}
