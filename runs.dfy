/** What one shell command leaves behind: its exit status, the filesystem,
    the lines written to stderr and the primitive calls it attempted, plus the
    force rule that every per-item loop of the executor follows. */
module Runs {
  import opened Text
  import opened FileSystem

  const EFAIL := 1
  const ENOENT := 7
  const EINVAL := 8

  /** One stderr line each. */
  datatype Message =
    | CannotFindFile(pattern: string)
    | CannotRemoveFile(path: string)
    | CannotRemoveTree(path: string)
    | CannotMakeDirectory(path: string)
    | CannotRemoveDirectory(path: string)
    | CannotCreateFile(path: string)
    | CannotTouchFile(path: string)
    | InvalidParameterFor(command: string, args: seq<string>)
    | InvalidParameter
    | NotADirectory(path: string)
    | CannotMove(src: string, dst: string)
    | CannotCopy(src: string, dst: string)
    | CannotCreateLink(link: string, target: string)
    | InvalidArguments
    | MissingCommand
    | UnrecognizedCommand(name: string)
    | UnknownCommand(name: string)

  /** `repr` of a list of strings, without escaping. */
  function ShowList(xs: seq<string>): string {
    "[" + ShowItems(xs) + "]"
  }

  function ShowItems(xs: seq<string>): string {
    if xs == [] then ""
    else if |xs| == 1 then "'" + xs[0] + "'"
    else "'" + xs[0] + "', " + ShowItems(xs[1..])
  }

  /** The text the current command set writes for each message. */
  function Render(m: Message): string {
    match m
    case CannotFindFile(p) => "Can not find file " + p
    case CannotRemoveFile(p) => "Can not remove file " + p
    case CannotRemoveTree(p) => "Can not remove tree " + p
    case CannotMakeDirectory(p) => "Can not make directory " + p
    case CannotRemoveDirectory(p) => "Can not remove directory " + p
    case CannotCreateFile(p) => "Can not create file " + p
    case CannotTouchFile(p) => "Can not touch file " + p
    case InvalidParameterFor(c, a) => "Invalid parameter " + ShowList(a) + " for " + c
    case InvalidParameter => "Invalid parameter"
    case NotADirectory(p) => p + " is not a direcotry"
    case CannotMove(s, d) => "Can not move " + s + " to " + d
    case CannotCopy(s, d) => "Can not copy " + s + " to " + d
    case CannotCreateLink(l, t) => "Can not create symbolic link: " + l + " -> " + t
    case InvalidArguments => "Invalid arguments"
    case MissingCommand => "Missing command"
    case UnrecognizedCommand(n) => "Unrecognized command \"" + n + "\""
    case UnknownCommand(n) => "Unknown command " + n
  }

  datatype Options = Options(
    force: bool,
    recursive: bool,
    followSymlinks: bool,
    symlinkd: bool,
    removeEmptyDirs: bool)

  /** One attempted primitive call and whether it raised. */
  datatype Attempt = Attempt(call: Call, path: string, ok: bool)

  /** The state of a command's loop; `done` means it has returned. */
  datatype Run = Run(status: int, fs: Fs, err: seq<Message>, tried: seq<Attempt>, done: bool)

  function Start(fs: Fs): Run {
    Run(0, fs, [], [], false)
  }

  /** The per-item force rule: a failed call sets the status to EFAIL; with
      force the loop goes on silently, without it one message is written and
      the command returns. */
  function Try(r: Run, force: bool, call: Call, path: string, res: Res, msg: Message): (r': Run)
    ensures r'.tried == r.tried + [Attempt(call, path, res.ok)] && r'.fs == res.fs
    ensures res.ok ==> r' == r.(fs := res.fs, tried := r'.tried)
    ensures !res.ok ==> r'.status == EFAIL && r'.done == (!force || r.done)
    ensures !res.ok ==> r'.err == if force then r.err else r.err + [msg]
  {
    var r1 := r.(fs := res.fs, tried := r.tried + [Attempt(call, path, res.ok)]);
    if res.ok then r1
    else if force then r1.(status := EFAIL)
    else r1.(status := EFAIL, err := r.err + [msg], done := true)
  }

  /** Return EFAIL at once with one message, before any call. */
  function Abort(r: Run, msg: Message): (r': Run)
    ensures r'.status == EFAIL && r'.done && r'.err == r.err + [msg]
    ensures r'.fs == r.fs && r'.tried == r.tried
  {
    r.(status := EFAIL, err := r.err + [msg], done := true)
  }

  predicate SomeFailed(tried: seq<Attempt>) {
    exists i :: 0 <= i < |tried| && !tried[i].ok
  }

  /** What a forced loop keeps: nothing written, never returned early, and
      status EFAIL exactly when some attempted call raised. */
  predicate ForcedRun(r: Run) {
    && r.err == []
    && !r.done
    && (r.status == 0 || r.status == EFAIL)
    && (r.status == EFAIL <==> SomeFailed(r.tried))
  }

  /** What an unforced loop keeps: every call but the last succeeded, a failed
      call ends the command, and it has written one message exactly when it
      returned EFAIL. */
  predicate StrictRun(r: Run) {
    && (forall i :: 0 <= i < |r.tried| - 1 ==> r.tried[i].ok)
    && (SomeFailed(r.tried) ==> r.done)
    && r.status == (if r.done then EFAIL else 0)
    && |r.err| == (if r.done then 1 else 0)
  }

  lemma TryForced(r: Run, call: Call, path: string, res: Res, msg: Message)
    requires ForcedRun(r)
    ensures ForcedRun(Try(r, true, call, path, res, msg))
  {
    var r' := Try(r, true, call, path, res, msg);
    if SomeFailed(r.tried) {
      var i :| 0 <= i < |r.tried| && !r.tried[i].ok;
      assert r'.tried[i] == r.tried[i];
    }
    if !res.ok {
      assert r'.tried[|r.tried|] == Attempt(call, path, false);
    } else if SomeFailed(r'.tried) {
      var i :| 0 <= i < |r'.tried| && !r'.tried[i].ok;
      assert i < |r.tried| && r.tried[i] == r'.tried[i];
    }
  }

  lemma TryStrict(r: Run, call: Call, path: string, res: Res, msg: Message)
    requires StrictRun(r) && !r.done
    ensures StrictRun(Try(r, false, call, path, res, msg))
  {
    var r' := Try(r, false, call, path, res, msg);
    assert forall i :: 0 <= i < |r.tried| ==> r.tried[i].ok;
    assert forall i :: 0 <= i < |r.tried| ==> r'.tried[i] == r.tried[i];
    if res.ok {
      assert !SomeFailed(r'.tried);
    }
  }

  lemma AbortStrict(r: Run, msg: Message)
    requires StrictRun(r) && !r.done
    ensures StrictRun(Abort(r, msg))
  {
  }

  /** The per-item rule of `mv`, `cp` and `mklink`: a failed call sets EFAIL
      and ends the command whether or not force is set; force only
      suppresses the message. */
  function TryOnce(r: Run, force: bool, call: Call, path: string, res: Res, msg: Message): (r': Run)
    ensures r'.tried == r.tried + [Attempt(call, path, res.ok)] && r'.fs == res.fs
    ensures res.ok ==> r' == r.(fs := res.fs, tried := r'.tried)
    ensures !res.ok ==> r'.status == EFAIL && r'.done
    ensures !res.ok ==> r'.err == if force then r.err else r.err + [msg]
  {
    var r1 := Try(r, force, call, path, res, msg);
    if res.ok then r1 else r1.(done := true)
  }

  /** What a loop under `TryOnce` keeps: every call but the last succeeded,
      the command returned exactly when a call raised, it returned EFAIL
      then, and it wrote one message only then and only without force. */
  predicate StopRun(r: Run, force: bool) {
    && (forall i :: 0 <= i < |r.tried| - 1 ==> r.tried[i].ok)
    && (SomeFailed(r.tried) <==> r.done)
    && r.status == (if r.done then EFAIL else 0)
    && |r.err| == (if r.done && !force then 1 else 0)
  }

  lemma TryOnceStop(r: Run, force: bool, call: Call, path: string, res: Res, msg: Message)
    requires StopRun(r, force) && !r.done
    ensures StopRun(TryOnce(r, force, call, path, res, msg), force)
  {
    var r' := TryOnce(r, force, call, path, res, msg);
    assert forall i :: 0 <= i < |r.tried| ==> r.tried[i].ok;
    assert forall i :: 0 <= i < |r.tried| ==> r'.tried[i] == r.tried[i];
    if res.ok {
      assert !SomeFailed(r'.tried);
    } else {
      assert !r'.tried[|r.tried|].ok;
    }
  }
}
