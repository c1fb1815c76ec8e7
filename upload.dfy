/** The remote-path computation of `ShellCmd.run__upload`: each item is
    `local` or `remote=local`; every non-directory match of `local` is sent
    to a path built from the remote directory of the URL, with doubled
    slashes collapsed. */
module Upload {
  import opened Text
  import opened FileSystem

  /** `parsed.path or '/'`: the URL path, `/` when empty. */
  function RemoteDir(urlPath: string): (r: string)
    ensures r != ""
    ensures urlPath != "" ==> r == urlPath
  {
    if urlPath == "" then "/" else urlPath
  }

  /** Collapses every run of slashes to one. */
  function Squeeze(s: string): (r: string)
    ensures !HasDoubleSlash(r)
    ensures |r| <= |s|
    ensures s != [] ==> r != [] && r[0] == s[0]
  {
    if |s| < 2 then s
    else if s[0] == '/' && s[1] == '/' then Squeeze(s[1..])
    else
      var t := Squeeze(s[1..]);
      var x := [s[0]] + t;
      assert !HasDoubleSlash(x) by {
        forall i | 0 <= i < |x| - 1 ensures !(x[i] == '/' && x[i + 1] == '/') {
          if i == 0 {
            assert x[1] == s[1];
          } else {
            assert x[i] == t[i - 1] && x[i + 1] == t[i];
          }
        }
      }
      x
  }

  /** A string without `//` is its own squeeze. */
  lemma {:induction false} SqueezeFixed(s: string)
    requires !HasDoubleSlash(s)
    ensures Squeeze(s) == s
    decreases |s|
  {
    if |s| >= 2 {
      assert !(s[0] == '/' && s[1] == '/');
      assert !HasDoubleSlash(s[1..]) by {
        forall i | 0 <= i < |s[1..]| - 1 ensures !(s[1..][i] == '/' && s[1..][i + 1] == '/') {
          assert s[1..][i] == s[i + 1] && s[1..][i + 1] == s[i + 2];
        }
      }
      SqueezeFixed(s[1..]);
      assert [s[0]] + s[1..] == s;
    }
  }

  /** One pass of `replace('//', '/')` does not change the squeeze. */
  lemma {:induction false} ReplacePreservesSqueeze(s: string)
    ensures Squeeze(ReplaceDoubleSlash(s)) == Squeeze(s)
    decreases |s|
  {
    if |s| >= 2 {
      if s[0] == '/' && s[1] == '/' {
        ReplacePreservesSqueeze(s[2..]);
        var t := ReplaceDoubleSlash(s[2..]);
        assert ReplaceDoubleSlash(s) == "/" + t;
        assert s[1..][1..] == s[2..];
        if |s| >= 3 && s[2] == '/' {
          // `//` followed by `/`: both sides squeeze the slash run away.
          SqueezeSlashPrefix(s[2..]);
          SqueezeSlashPrefix(t);
          ReplaceHead(s[2..]);
          assert Squeeze(s[1..]) == Squeeze(s[2..]);
          assert Squeeze("/" + t) == Squeeze(t);
        } else {
          if s[2..] != [] {
            ReplaceHead(s[2..]);
          }
          SqueezeCons('/', t);
          SqueezeCons('/', s[2..]);
        }
      } else {
        ReplacePreservesSqueeze(s[1..]);
        var t := ReplaceDoubleSlash(s[1..]);
        assert ReplaceDoubleSlash(s) == [s[0]] + t;
        if s[0] != '/' {
          SqueezeCons(s[0], t);
          SqueezeCons(s[0], s[1..]);
        } else {
          // s[0] is '/', s[1] is not, so neither side's second char is '/'.
          ReplaceHead(s[1..]);
          SqueezeCons('/', t);
          SqueezeCons('/', s[1..]);
        }
      }
    }
  }

  /** The first character survives the replacement pass. */
  lemma ReplaceHead(s: string)
    requires s != []
    ensures ReplaceDoubleSlash(s) != [] && ReplaceDoubleSlash(s)[0] == s[0]
  {
  }

  /** Squeezing `c + t` when `c` cannot merge with the head of `t`. */
  lemma SqueezeCons(c: char, t: string)
    requires c != '/' || t == [] || t[0] != '/'
    ensures Squeeze([c] + t) == [c] + Squeeze(t)
  {
    var s := [c] + t;
    assert s[1..] == t;
    if |s| < 2 {
      assert t == [];
    }
  }

  /** A leading slash before another slash is absorbed. */
  lemma SqueezeSlashPrefix(t: string)
    requires t != [] && t[0] == '/'
    ensures Squeeze("/" + t) == Squeeze(t)
  {
    var s := "/" + t;
    assert s[1..] == t;
  }

  /** What the loop `while '//' in p: p = p.replace('//', '/')` leaves:
      the squeeze of `p`, which has no `//`. */
  method CollapseSlashes(p: string) returns (r: string)
    ensures r == Squeeze(p)
    ensures !HasDoubleSlash(r)
  {
    r := p;
    while HasDoubleSlash(r)
      invariant Squeeze(r) == Squeeze(p)
      decreases |r|
    {
      ReplacePreservesSqueeze(r);
      r := ReplaceDoubleSlash(r);
    }
    SqueezeFixed(r);
  }

  /** The remote path before the collapse: a bare `local` goes under its
      basename, `remote=local` under `remote`; a relative remote is joined to
      the remote directory, and a remote ending in `/` gets the basename. */
  function RawRemote(remoteDir: string, pair: seq<string>, local: string): string
    requires |pair| >= 1
  {
    var named := if |pair| == 1 then Basename(local) else pair[0];
    var absolute := if StartsWith(named, "/") then named else remoteDir + "/" + named;
    if EndsWith(absolute, "/") then absolute + "/" + Basename(local) else absolute
  }

  /** One planned transfer. */
  datatype Transfer = Transfer(local: string, remote: string)

  /** The transfers for one item, in glob order, directories skipped. */
  function ItemPlan(glob: Glob, fs: Fs, remoteDir: string, item: string): seq<Transfer> {
    var pair := Split(item, '=');
    ItemMatches(fs, remoteDir, pair, glob(fs, pair[|pair| - 1]))
  }

  function ItemMatches(fs: Fs, remoteDir: string, pair: seq<string>, locals: seq<string>): seq<Transfer>
    requires |pair| >= 1
    decreases |locals|
  {
    if locals == [] then []
    else
      var rest := ItemMatches(fs, remoteDir, pair, locals[..|locals| - 1]);
      var local := locals[|locals| - 1];
      if IsDir(fs, local) then rest
      else rest + [Transfer(local, Squeeze(RawRemote(remoteDir, pair, local)))]
  }

  /** The transfers of all items, in order. */
  function Plan(glob: Glob, fs: Fs, remoteDir: string, items: seq<string>): seq<Transfer>
    decreases |items|
  {
    if items == [] then [] else Plan(glob, fs, remoteDir, items[..|items| - 1]) + ItemPlan(glob, fs, remoteDir, items[|items| - 1])
  }

  /** The remote path of one match, as the loop body computes it. */
  method RemoteFor(remoteDir: string, pair: seq<string>, local: string) returns (remote: string)
    requires |pair| >= 1
    ensures remote == Squeeze(RawRemote(remoteDir, pair, local))
  {
    remote := if |pair| == 1 then Basename(local) else pair[0];
    if !StartsWith(remote, "/") {
      remote := remoteDir + "/" + remote;
    }
    if EndsWith(remote, "/") {
      remote := remote + "/" + Basename(local);
    }
    remote := CollapseSlashes(remote);
  }

  method PlanItem(glob: Glob, fs: Fs, remoteDir: string, item: string) returns (plan: seq<Transfer>)
    ensures plan == ItemPlan(glob, fs, remoteDir, item)
  {
    var pair := Split(item, '=');
    var locals := glob(fs, pair[|pair| - 1]);
    plan := [];
    var j := 0;
    while j < |locals|
      invariant 0 <= j <= |locals|
      invariant plan == ItemMatches(fs, remoteDir, pair, locals[..j])
    {
      ItemMatchesStep(fs, remoteDir, pair, locals, j);
      var local := locals[j];
      if !IsDir(fs, local) {
        var remote := RemoteFor(remoteDir, pair, local);
        plan := plan + [Transfer(local, remote)];
      }
      j := j + 1;
    }
    assert locals[..|locals|] == locals;
  }

  lemma ItemMatchesStep(fs: Fs, remoteDir: string, pair: seq<string>, locals: seq<string>, j: nat)
    requires |pair| >= 1 && j < |locals|
    ensures ItemMatches(fs, remoteDir, pair, locals[..j + 1]) ==
            ItemMatches(fs, remoteDir, pair, locals[..j])
            + (if IsDir(fs, locals[j]) then [] else [Transfer(locals[j], Squeeze(RawRemote(remoteDir, pair, locals[j])))])
  {
    assert locals[..j + 1][..j] == locals[..j];
  }

  /** The upload loop with the transfer itself left out: the pairs it would
      send, in order. */
  method PlanUploads(glob: Glob, fs: Fs, urlPath: string, items: seq<string>) returns (plan: seq<Transfer>)
    ensures plan == Plan(glob, fs, RemoteDir(urlPath), items)
  {
    var remoteDir := if urlPath == "" then "/" else urlPath;
    plan := [];
    var i := 0;
    while i < |items|
      invariant 0 <= i <= |items|
      invariant plan == Plan(glob, fs, remoteDir, items[..i])
    {
      PlanPrefixStep(glob, fs, remoteDir, items, i);
      var more := PlanItem(glob, fs, remoteDir, items[i]);
      plan := plan + more;
      i := i + 1;
    }
    assert items[..|items|] == items;
  }

  /** A transfer the upload loop can plan. */
  predicate Sendable(fs: Fs, t: Transfer) {
    !HasDoubleSlash(t.remote) && !IsDir(fs, t.local)
  }

  lemma {:induction false} ItemMatchesProps(fs: Fs, remoteDir: string, pair: seq<string>, locals: seq<string>)
    requires |pair| >= 1
    ensures forall k :: 0 <= k < |ItemMatches(fs, remoteDir, pair, locals)| ==>
              var t := ItemMatches(fs, remoteDir, pair, locals)[k];
              Sendable(fs, t) && t.local in locals && t.remote == Squeeze(RawRemote(remoteDir, pair, t.local))
    decreases |locals|
  {
    if locals != [] {
      var init := locals[..|locals| - 1];
      ItemMatchesProps(fs, remoteDir, pair, init);
      assert forall x :: x in init ==> x in locals;
    }
  }

  lemma {:induction false} PlanProps(glob: Glob, fs: Fs, remoteDir: string, items: seq<string>)
    ensures forall k :: 0 <= k < |Plan(glob, fs, remoteDir, items)| ==> Sendable(fs, Plan(glob, fs, remoteDir, items)[k])
    decreases |items|
  {
    if items != [] {
      var init := items[..|items| - 1];
      PlanProps(glob, fs, remoteDir, init);
      ItemPlanSendable(glob, fs, remoteDir, items[|items| - 1]);
      PlanLast(glob, fs, remoteDir, items);
      SendableAppend(fs, Plan(glob, fs, remoteDir, init), ItemPlan(glob, fs, remoteDir, items[|items| - 1]));
    }
  }

  lemma PlanLast(glob: Glob, fs: Fs, remoteDir: string, items: seq<string>)
    requires items != []
    ensures Plan(glob, fs, remoteDir, items)
            == Plan(glob, fs, remoteDir, items[..|items| - 1]) + ItemPlan(glob, fs, remoteDir, items[|items| - 1])
  {
  }

  lemma PlanPrefixStep(glob: Glob, fs: Fs, remoteDir: string, items: seq<string>, i: nat)
    requires i < |items|
    ensures Plan(glob, fs, remoteDir, items[..i + 1]) == Plan(glob, fs, remoteDir, items[..i]) + ItemPlan(glob, fs, remoteDir, items[i])
  {
    assert items[..i + 1][..i] == items[..i];
    PlanLast(glob, fs, remoteDir, items[..i + 1]);
  }

  lemma ItemPlanSendable(glob: Glob, fs: Fs, remoteDir: string, item: string)
    ensures forall k :: 0 <= k < |ItemPlan(glob, fs, remoteDir, item)| ==> Sendable(fs, ItemPlan(glob, fs, remoteDir, item)[k])
  {
    var pair := Split(item, '=');
    ItemMatchesProps(fs, remoteDir, pair, glob(fs, pair[|pair| - 1]));
  }

  lemma SendableAppend(fs: Fs, a: seq<Transfer>, b: seq<Transfer>)
    requires forall k :: 0 <= k < |a| ==> Sendable(fs, a[k])
    requires forall k :: 0 <= k < |b| ==> Sendable(fs, b[k])
    ensures forall k :: 0 <= k < |a + b| ==> Sendable(fs, (a + b)[k])
  {
    forall k | 0 <= k < |a + b| ensures Sendable(fs, (a + b)[k]) {
      if k >= |a| {
        assert (a + b)[k] == b[k - |a|];
      } else {
        assert (a + b)[k] == a[k];
      }
    }
  }

  /** No planned remote path contains `//`, and no directory is sent. */
  lemma NoDoubleSlash(glob: Glob, fs: Fs, urlPath: string, items: seq<string>)
    ensures forall k :: 0 <= k < |Plan(glob, fs, RemoteDir(urlPath), items)| ==>
              Sendable(fs, Plan(glob, fs, RemoteDir(urlPath), items)[k])
  {
    PlanProps(glob, fs, RemoteDir(urlPath), items);
  }

  /** A bare item (no `=`) sends each match to `<remote dir>/<basename>`. */
  lemma BareLocalUnderRemoteDir(remoteDir: string, local: string)
    requires Basename(local) != ""
    ensures RawRemote(remoteDir, [local], local) == remoteDir + "/" + Basename(local)
  {
    var b := Basename(local);
    assert b[0] != '/';
    assert !StartsWith(b, "/");
    var a := remoteDir + "/" + b;
    assert a[|a| - 1] == b[|b| - 1] != '/';
  }

  /** A bare item is split into just itself. */
  lemma BareItem(item: string)
    requires !Contains(item, '=')
    ensures Split(item, '=') == [item]
  {
    SplitNoSep(item, '=');
  }

  /** A remote name ending in `/` gets the local basename appended. */
  lemma TrailingSlashGetsBasename(remoteDir: string, remote: string, local: string)
    requires EndsWith(remote, "/") && StartsWith(remote, "/")
    ensures RawRemote(remoteDir, [remote, local], local) == remote + "/" + Basename(local)
  {
  }

  /** A relative remote name is placed under the remote directory. */
  lemma RelativeRemoteUnderRemoteDir(remoteDir: string, remote: string, local: string)
    requires !StartsWith(remote, "/") && !EndsWith(remote, "/") && remote != ""
    ensures RawRemote(remoteDir, [remote, local], local) == remoteDir + "/" + remote
  {
    var a := remoteDir + "/" + remote;
    assert a[|a| - 1] == remote[|remote| - 1];
    assert EndsWith(remote, "/") <==> remote[|remote| - 1] == '/';
  }
}
