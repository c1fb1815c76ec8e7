/** `ShellCmd.win2wsl_path`, `ShellCmd.wsl2win_path` and
    `ShellCmd.run__is_wsl_win_path`: rewriting a Windows drive path `D:/...`
    to the WSL mount `/mnt/d/...` and back, on already absolute paths. */
module WslPaths {
  import opened Text
  import opened FileSystem

  /** Backslashes become forward slashes. */
  function Slashed(path: string): (r: string)
    ensures |r| == |path|
    ensures !Contains(r, '\\')
  {
    ReplaceChar(path, '\\', '/')
  }

  /** `win2wsl_path`: a one-letter drive before the first `:` becomes
      `/mnt/<lower-case letter>`, and trailing slashes are dropped. */
  function Win2Wsl(path: string): string {
    var p := Slashed(path);
    var colon := Find(p, ":");
    if colon == 1 && IsAsciiAlpha(p[0]) then RStripSlash("/mnt/" + [Lower(p[0])] + p[2..])
    else p
  }

  /** The `run__is_wsl_win_path` test, on a path with forward slashes. */
  predicate MountPath(p: string) {
    |p| >= 6 && StartsWith(p, "/mnt/") && IsAsciiAlpha(p[5]) && (|p| == 6 || p[6] == '/')
  }

  /** `wsl2win_path`: `/mnt/<letter>` becomes `<LETTER>:/`, and
      `/mnt/<letter>/rest` becomes `<LETTER>:/rest`. */
  function Wsl2Win(path: string): string {
    var p := Slashed(path);
    if MountPath(p) then
      if |p| == 6 then [Upper(p[5])] + ":/" else [Upper(p[5])] + ":" + p[6..]
    else p
  }

  /** `run__is_wsl_win_path` on the absolute path it inspects (its first
      argument, or the working directory): what it prints and its status. */
  function IsWslWinPath(path: string): (r: (string, int))
    ensures r.1 == 0
    ensures r.0 == "true" <==> exists c, rest :: IsAsciiAlpha(c) && (rest == "" || rest[0] == '/')
                                                && Slashed(path) == "/mnt/" + [c] + rest
    ensures r.0 == "true" || r.0 == "false"
  {
    var p := Slashed(path);
    forall c, rest | IsAsciiAlpha(c) && (rest == "" || rest[0] == '/')
      ensures MountPath("/mnt/" + [c] + rest)
    {
      MountPathOf(c, rest);
    }
    if MountPath(p) then
      assert p == "/mnt/" + [p[5]] + p[6..];
      assert p[6..] == "" || p[6..][0] == '/';
      ("true", 0)
    else ("false", 0)
  }

  lemma MountPathOf(c: char, rest: string)
    requires IsAsciiAlpha(c) && (rest == "" || rest[0] == '/')
    ensures MountPath("/mnt/" + [c] + rest)
  {
    var p := "/mnt/" + [c] + rest;
    assert p[..5] == "/mnt/" && p[5] == c;
    if rest != "" { assert p[6] == rest[0]; }
  }

  lemma SlashedIdentity(p: string)
    requires !Contains(p, '\\')
    ensures Slashed(p) == p
  {
  }

  lemma UpperLower(c: char)
    requires 'A' <= c <= 'Z'
    ensures Upper(Lower(c)) == c
  {
  }

  lemma LowerUpper(c: char)
    requires 'a' <= c <= 'z'
    ensures Lower(Upper(c)) == c
  {
  }

  /** `win2wsl_path` on a drive path. */
  lemma Win2WslDrive(d: char, rest: string)
    requires IsAsciiAlpha(d) && !Contains(rest, '\\')
    ensures Win2Wsl([d, ':'] + rest) == RStripSlash("/mnt/" + [Lower(d)] + rest)
  {
    var w := [d, ':'] + rest;
    assert !Contains(w, '\\') by {
      forall i | 0 <= i < |w| ensures w[i] != '\\' {
        if i >= 2 { assert w[i] == rest[i - 2]; }
      }
    }
    SlashedIdentity(w);
    assert !OccursAt(w, ":", 0) && OccursAt(w, ":", 1);
    assert FindFrom(w, ":", 1) == 1;
    assert Find(w, ":") == 1;
    assert w[0] == d && w[2..] == rest;
  }

  /** `wsl2win_path` on a mount path. */
  lemma Wsl2WinMount(c: char, rest: string)
    requires IsAsciiAlpha(c) && (rest == "" || rest[0] == '/') && !Contains(rest, '\\')
    ensures Wsl2Win("/mnt/" + [c] + rest) == if rest == "" then [Upper(c)] + ":/" else [Upper(c)] + ":" + rest
  {
    var m := "/mnt/" + [c] + rest;
    assert !Contains(m, '\\') by {
      forall i | 0 <= i < |m| ensures m[i] != '\\' {
        if i >= 6 { assert m[i] == rest[i - 6]; }
      }
    }
    SlashedIdentity(m);
    assert m[..5] == "/mnt/" && m[5] == c && m[6..] == rest;
    if rest != "" {
      assert m[6] == rest[0];
    }
  }

  /** A Windows path with an upper-case drive and an absolute rest that has no
      backslash and no trailing slash comes back from the round trip. */
  lemma WinRoundTrip(d: char, rest: string)
    requires 'A' <= d <= 'Z'
    requires rest != "" && rest[0] == '/' && rest[|rest| - 1] != '/' && !Contains(rest, '\\')
    ensures Wsl2Win(Win2Wsl([d, ':'] + rest)) == [d, ':'] + rest
  {
    Win2WslDrive(d, rest);
    var m := "/mnt/" + [Lower(d)] + rest;
    assert m[|m| - 1] == rest[|rest| - 1];
    assert RStripSlash(m) == m;
    Wsl2WinMount(Lower(d), rest);
    UpperLower(d);
    assert [Upper(Lower(d))] + ":" + rest == [d, ':'] + rest;
  }

  /** The bare drive: `D:` and `D:/` both go to `/mnt/d`, which comes back
      as `D:/`. */
  lemma DriveRoot(d: char)
    requires 'A' <= d <= 'Z'
    ensures Win2Wsl([d, ':']) == "/mnt/" + [Lower(d)]
    ensures Win2Wsl([d, ':', '/']) == "/mnt/" + [Lower(d)]
    ensures Wsl2Win("/mnt/" + [Lower(d)]) == [d, ':', '/']
  {
    UpperLower(d);
    var m := "/mnt/" + [Lower(d)];
    Win2WslDrive(d, "");
    assert [d, ':'] + "" == [d, ':'] && m + "" == m;
    assert m[|m| - 1] != '/';
    assert RStripSlash(m) == m;
    Win2WslDrive(d, "/");
    assert [d, ':'] + "/" == [d, ':', '/'];
    assert (m + "/")[..|m + "/"| - 1] == m;
    assert RStripSlash(m + "/") == m;
    Wsl2WinMount(Lower(d), "");
    assert "/mnt/" + [Lower(d)] + "" == m;
  }

  /** A WSL mount path with a lower-case letter and no trailing slash comes
      back from the round trip. */
  lemma WslRoundTrip(c: char, rest: string)
    requires 'a' <= c <= 'z'
    requires rest == "" || (rest[0] == '/' && rest[|rest| - 1] != '/')
    requires !Contains(rest, '\\')
    ensures Win2Wsl(Wsl2Win("/mnt/" + [c] + rest)) == "/mnt/" + [c] + rest
  {
    Wsl2WinMount(c, rest);
    LowerUpper(c);
    if rest == "" {
      assert "/mnt/" + [c] + rest == "/mnt/" + [c];
      DriveRoot(Upper(c));
    } else {
      assert [Upper(c)] + ":" + rest == [Upper(c), ':'] + rest;
      Win2WslDrive(Upper(c), rest);
      var m := "/mnt/" + [c] + rest;
      assert m[|m| - 1] == rest[|rest| - 1];
      assert RStripSlash(m) == m;
    }
  }

  /** `is_wsl_win_path` says `true` exactly for the paths `wsl2win_path`
      rewrites. */
  lemma RecognisedIffRewritten(path: string)
    ensures IsWslWinPath(path).0 == "true" <==> Wsl2Win(path) != Slashed(path)
  {
    var p := Slashed(path);
    if MountPath(p) {
      assert Wsl2Win(path)[0] != '/';
      assert p[0] == '/';
    }
  }
}
