/** An abstract filesystem: what every path names, the primitive OS calls the
    shell commands make on it, and the POSIX path helpers (`os.path.basename`,
    `dirname`, `join`) on already-normalised paths. */
module FileSystem {
  import opened Text

  /** What a path names; a link names its target path and whether it was made
      with directory semantics. */
  datatype Kind = File | Dir | Link(target: string, isDirLink: bool) | Other

  type Fs = map<string, Kind>

  /** The primitive calls that can raise `OSError`. */
  datatype Call = Remove | Rmdir | Rmtree | Makedirs | Utime | Create | Move | Copy | Unlink | Symlink | CopyTree | Prune

  /** A fault makes the call on that path raise, besides the failures the
      filesystem itself causes (removing a directory as a file, say). */
  datatype Fault = Fault(call: Call, path: string)

  type Faults = set<Fault>

  /** `glob.glob`, supplied from outside: the matches of a pattern in a state. */
  type Glob = (Fs, string) -> seq<string>

  /** The outcome of one primitive call: whether it succeeded and the state it
      left (a failed call may have done part of its work). */
  datatype Res = Res(ok: bool, fs: Fs)

  /** The prefix every path strictly below `d` has: `d` itself when it
      already ends in a separator (the root `/`), else `d` and a `/`. */
  function DirPrefix(d: string): string {
    if EndsWith(d, "/") then d else d + "/"
  }

  /** `p` lies strictly below directory `d`. */
  predicate Under(p: string, d: string) {
    StartsWith(p, DirPrefix(d)) && |p| > |DirPrefix(d)|
  }

  predicate InTree(p: string, d: string) {
    p == d || Under(p, d)
  }

  /** A path in the tree of `d` begins with `d`. */
  lemma InTreeStartsWith(p: string, d: string)
    requires InTree(p, d)
    ensures StartsWith(p, d)
  {
    if p != d {
      assert StartsWith(DirPrefix(d), d);
      StartsWithTrans(p, DirPrefix(d), d);
    }
  }

  /** When `d` begins with `prefix`, so does everything in its tree. */
  lemma TreeStartsWith(p: string, d: string, prefix: string)
    requires StartsWith(d, prefix)
    ensures InTree(p, d) ==> StartsWith(p, prefix)
  {
    if InTree(p, d) {
      InTreeStartsWith(p, d);
      StartsWithTrans(p, d, prefix);
    }
  }

  /** `os.path.islink`. */
  predicate IsLink(fs: Fs, p: string) {
    p in fs && fs[p].Link?
  }

  /** `os.path.isdir`, following one link. */
  predicate IsDir(fs: Fs, p: string) {
    p in fs && (fs[p].Dir? || (fs[p].Link? && fs[p].target in fs && fs[fs[p].target].Dir?))
  }

  /** `os.path.isfile`, following one link. */
  predicate IsFile(fs: Fs, p: string) {
    p in fs && (fs[p].File? || (fs[p].Link? && fs[p].target in fs && fs[fs[p].target].File?))
  }

  /** `os.path.exists`, following one link: a dangling link does not
      exist. */
  predicate Exists(fs: Fs, p: string) {
    p in fs && (!fs[p].Link? || fs[p].target in fs)
  }

  /** Where a call that follows links, such as `open`, lands for `p`: the
      target of a link at `p`, else `p` itself. */
  function Resolve(fs: Fs, p: string): (w: string)
    ensures w == p || IsLink(fs, p)
  {
    if IsLink(fs, p) then fs[p].target else p
  }

  /** No link in `fs` names `q` as its target. */
  predicate Untargeted(fs: Fs, q: string) {
    forall p :: p in fs && fs[p].Link? ==> fs[p].target != q
  }

  /** A directory entry with nothing below it. */
  predicate IsEmptyDir(fs: Fs, p: string) {
    p in fs && fs[p].Dir? && forall q :: q in fs ==> !Under(q, p)
  }

  /** Index of the last `/` in `p`, or -1. */
  function LastSlash(p: string): (r: int)
    ensures -1 <= r < |p|
    ensures r >= 0 ==> p[r] == '/'
    ensures forall j :: r < j < |p| ==> p[j] != '/'
  {
    if p == [] then -1
    else if p[|p| - 1] == '/' then |p| - 1
    else LastSlash(p[..|p| - 1])
  }

  /** `os.path.basename`: the part after the last `/`. */
  function Basename(p: string): (r: string)
    ensures forall j :: 0 <= j < |r| ==> r[j] != '/'
    ensures EndsWith(p, r)
  {
    p[LastSlash(p) + 1..]
  }

  predicate AllSlashes(s: string) {
    forall j :: 0 <= j < |s| ==> s[j] == '/'
  }

  /** `str.rstrip('/')`. */
  function RStripSlash(s: string): (r: string)
    ensures |r| <= |s| && s[..|r|] == r
    ensures r == [] || r[|r| - 1] != '/'
    ensures |s| > 0 && s[|s| - 1] == '/' ==> |r| < |s|
  {
    if s != [] && s[|s| - 1] == '/' then RStripSlash(s[..|s| - 1]) else s
  }

  /** `os.path.dirname` (posixpath): the head before the last `/`, with its
      trailing slashes stripped unless it consists of slashes only. */
  function Dirname(p: string): (r: string)
    ensures r == p || |r| < |p|
  {
    var head := p[..LastSlash(p) + 1];
    if head != [] && !AllSlashes(head) then RStripSlash(head) else head
  }

  /** `os.path.join(a, b)` for two components. */
  function Join(a: string, b: string): string {
    if StartsWith(b, "/") then b
    else if a == [] || EndsWith(a, "/") then a + b
    else a + "/" + b
  }

  /** `p` and its ancestors by repeated `dirname`, up to the fixed point. */
  function Chain(p: string): (c: seq<string>)
    ensures |c| >= 1 && c[0] == p
    ensures forall k :: 0 <= k < |c| ==> |c[k]| <= |p|
    decreases |p|
  {
    var d := Dirname(p);
    if d == p then [p] else [p] + Chain(d)
  }

  /** `os.remove`: deletes any entry but a directory. */
  function OsRemove(fs: Fs, faults: Faults, p: string): (r: Res)
    ensures r.ok <==> Fault(Remove, p) !in faults && p in fs && !fs[p].Dir?
    ensures r.fs == if r.ok then fs - {p} else fs
  {
    if Fault(Remove, p) in faults || p !in fs || fs[p].Dir? then Res(false, fs)
    else Res(true, fs - {p})
  }

  /** `os.rmdir`: deletes an empty directory. */
  function OsRmdir(fs: Fs, faults: Faults, p: string): (r: Res)
    ensures r.ok <==> Fault(Rmdir, p) !in faults && IsEmptyDir(fs, p)
    ensures r.fs == if r.ok then fs - {p} else fs
  {
    if Fault(Rmdir, p) in faults || !IsEmptyDir(fs, p) then Res(false, fs)
    else Res(true, fs - {p})
  }

  /** The root with anything below it is not empty, so `os.rmdir("/")`
      raises. */
  lemma RootNotEmpty(fs: Fs, faults: Faults, q: string)
    requires q in fs && StartsWith(q, "/") && |q| > 1
    ensures !OsRmdir(fs, faults, "/").ok
  {
    assert DirPrefix("/") == "/" by { assert EndsWith("/", "/"); }
    assert Under(q, "/");
  }

  /** The state without the tree rooted at `p`. */
  function RemoveTree(fs: Fs, p: string): (r: Fs)
    ensures forall q :: q in r <==> q in fs && !InTree(q, p)
    ensures forall q :: q in r ==> r[q] == fs[q]
  {
    map q | q in fs && !InTree(q, p) :: fs[q]
  }

  /** `shutil.rmtree` as one call (its permission retry included in the fault). */
  function OsRmtree(fs: Fs, faults: Faults, p: string): (r: Res)
    ensures r.ok <==> Fault(Rmtree, p) !in faults && p in fs && fs[p].Dir?
    ensures r.fs == if r.ok then RemoveTree(fs, p) else fs
  {
    if Fault(Rmtree, p) in faults || p !in fs || !fs[p].Dir? then Res(false, fs)
    else Res(true, RemoveTree(fs, p))
  }

  /** `os.utime(p, None)`: changes no entry; it follows a link, so it
      fails on a missing path and on a dangling link. */
  function OsUtime(fs: Fs, faults: Faults, p: string): (r: Res)
    ensures r.ok <==> Fault(Utime, p) !in faults && Exists(fs, p)
    ensures r.fs == fs
  {
    Res(Fault(Utime, p) !in faults && Exists(fs, p), fs)
  }

  /** `open(p, 'ab').close()`: opens through a link at `p`, so it creates
      an empty file at the resolved path unless something is there; fails
      on a directory and on a new path whose directory is missing. */
  function OsCreate(fs: Fs, faults: Faults, p: string): (r: Res)
    ensures var w := Resolve(fs, p);
            r.ok <==> Fault(Create, p) !in faults && !(w in fs && fs[w].Dir?) && (w in fs || ParentExists(fs, w))
    ensures r.ok ==> Exists(r.fs, p)
    ensures r.ok ==> r.fs == fs || (Resolve(fs, p) !in fs && r.fs == fs[Resolve(fs, p) := File])
    ensures !r.ok ==> r.fs == fs
  {
    var w := Resolve(fs, p);
    if Fault(Create, p) in faults || (w in fs && fs[w].Dir?) || (w !in fs && !ParentExists(fs, w)) then Res(false, fs)
    else if w in fs then Res(true, fs)
    else Res(true, fs[w := File])
  }

  /** Where `shutil.move`, `shutil.copy2` and a link copy put `src`: inside
      `dst` when that is a directory, else at `dst`. */
  function Destination(fs: Fs, src: string, dst: string): string {
    if IsDir(fs, dst) then Join(dst, Basename(src)) else dst
  }

  /** The directory a new entry at `p` goes into exists (a bare name goes
      into the current directory). */
  predicate ParentExists(fs: Fs, p: string) {
    Dirname(p) == "" || IsDir(fs, Dirname(p))
  }

  /** `q`, a path in the tree of `src`, carried over to the tree of `to`. */
  function Rebase(q: string, src: string, to: string): (r: string)
    requires InTree(q, src)
    ensures InTree(r, to)
    ensures q == src <==> r == to
  {
    if q == src then to else DirPrefix(to) + q[|DirPrefix(src)|..]
  }

  /** Two paths of one tree never land on the same path. */
  lemma RebaseInjective(q1: string, q2: string, src: string, to: string)
    requires InTree(q1, src) && InTree(q2, src)
    requires Rebase(q1, src, to) == Rebase(q2, src, to)
    ensures q1 == q2
  {
    if q1 != src && q2 != src {
      var p, t := DirPrefix(src), DirPrefix(to);
      PrefixSplit(q1, p);
      PrefixSplit(q2, p);
      AppendCancel(t, q1[|p|..], q2[|p|..]);
    }
  }

  /** The entries of the tree of `src`, each at its rebased path. */
  function MovedEntries(fs: Fs, src: string, to: string): (m: Fs)
    ensures forall q :: q in fs && InTree(q, src) ==> Rebase(q, src, to) in m && m[Rebase(q, src, to)] == fs[q]
    ensures forall k :: k in m ==> InTree(k, to)
  {
    forall q1, q2 | InTree(q1, src) && InTree(q2, src) && Rebase(q1, src, to) == Rebase(q2, src, to)
      ensures q1 == q2
    {
      RebaseInjective(q1, q2, src, to);
    }
    var m := map q | q in fs && InTree(q, src) :: Rebase(q, src, to) := fs[q];
    forall q | q in fs && InTree(q, src) ensures m[Rebase(q, src, to)] == fs[q] {
      var k := Rebase(q, src, to);
      var q' :| q' in fs && InTree(q', src) && Rebase(q', src, to) == k && m[k] == fs[q'];
      RebaseInjective(q, q', src, to);
    }
    m
  }

  /** The state after the tree of `src` is renamed to `to`: every entry of
      the tree reappears at its rebased path with its kind, an existing
      entry at one of those paths is replaced, and nothing else changes. */
  function Relocate(fs: Fs, src: string, to: string): (r: Fs)
    ensures forall q :: q in fs && InTree(q, src) ==> Rebase(q, src, to) in r && r[Rebase(q, src, to)] == fs[q]
    ensures forall q :: q in fs && !InTree(q, src) && !InTree(q, to) ==> q in r && r[q] == fs[q]
    ensures forall q :: q in r && !InTree(q, to) ==> q in fs && !InTree(q, src)
  {
    var rest := map q | q in fs && !InTree(q, src) :: fs[q];
    rest + MovedEntries(fs, src, to)
  }

  /** `copytree(src, to, symlinks=True)` copies every entry below `src`:
      directories and files are copied and links recreated, while `copy2`
      raises on a special file. */
  predicate TreeCopyable(fs: Fs, src: string) {
    forall q :: q in fs && Under(q, src) ==> !fs[q].Other?
  }

  /** `shutil.move` raises (an `OSError` or its subclass `shutil.Error`):
      the destination inside a directory exists already (`os.path.exists`,
      so a dangling link there is replaced by the rename instead), a directory would
      go below itself or onto a non-directory, or the directory of the new
      path is missing or no directory. In that last case `os.rename` raises
      and `shutil.move` falls back: a file or link is copied with `copy2` or
      `os.symlink`, which raise too, while a directory is copied with
      `copytree(src, to, symlinks=True)`, whose `makedirs` raises only when
      the chain of `to` holds a non-directory, and whose copy raises on a
      special file. A directory moved onto itself is renamed in place before
      any of these is looked at. */
  predicate MoveRaises(fs: Fs, src: string, dst: string)
    requires src in fs
  {
    var to := Destination(fs, src, dst);
    !(IsDir(fs, dst) && dst == src)
    && ((IsDir(fs, dst) && Exists(fs, to))
        || (to != src && (Under(to, src) || (fs[src].Dir? && to in fs)
                          || (!ParentExists(fs, to) && (!fs[src].Dir? || !ChainOpen(fs, to) || !TreeCopyable(fs, src))))))
  }

  /** `shutil.move(src, dst)`: a rename of the whole tree of `src` to its
      destination; renaming a path to itself changes nothing. When the
      directory of the new path is missing, a directory still arrives there
      through the copy fallback, whose `makedirs` first makes the missing
      directories above it. */
  function OsMove(fs: Fs, faults: Faults, src: string, dst: string): (r: Res)
    ensures r.ok <==> Fault(Move, src) !in faults && src in fs && !MoveRaises(fs, src, dst)
    ensures var to := Destination(fs, src, dst);
            r.ok ==> r.fs == if (IsDir(fs, dst) && dst == src) || to == src then fs
                             else if ParentExists(fs, to) then Relocate(fs, src, to)
                             else MissingDirs(fs, to) + Relocate(fs, src, to)
    ensures !r.ok ==> r.fs == fs
  {
    var to := Destination(fs, src, dst);
    if Fault(Move, src) in faults || src !in fs || MoveRaises(fs, src, dst) then Res(false, fs)
    else if (IsDir(fs, dst) && dst == src) || to == src then Res(true, fs)
    else if ParentExists(fs, to) then Res(true, Relocate(fs, src, to))
    else Res(true, MissingDirs(fs, to) + Relocate(fs, src, to))
  }

  /** A move changes no entry outside the trees of its source and its
      destination. */
  lemma MoveFrame(fs: Fs, faults: Faults, src: string, dst: string, q: string)
    requires q in fs && !InTree(q, src) && !InTree(q, Destination(fs, src, dst))
    ensures var r := OsMove(fs, faults, src, dst).fs; q in r && r[q] == fs[q]
  {
  }

  /** A move that succeeds and is no rename in place carries the whole tree
      of `src` to its rebased paths and leaves nothing of it behind; the
      only new entries outside the new tree are the directories made above
      it, and only a directory moved into a missing directory makes them. */
  lemma MoveCarriesTree(fs: Fs, faults: Faults, src: string, dst: string)
    requires OsMove(fs, faults, src, dst).ok
    requires var to := Destination(fs, src, dst); to != src && !(IsDir(fs, dst) && dst == src)
    ensures var to := Destination(fs, src, dst);
            var r := OsMove(fs, faults, src, dst).fs;
            && (forall q :: q in fs && InTree(q, src) ==> Rebase(q, src, to) in r && r[Rebase(q, src, to)] == fs[q])
            && (forall q :: q in r && !InTree(q, to) ==>
                  (q in fs && !InTree(q, src)) || (q !in fs && q in Chain(to) && r[q] == Dir && !ParentExists(fs, to)))
            && (!ParentExists(fs, to) ==> src in fs && fs[src].Dir? && ChainOpen(fs, to) && TreeCopyable(fs, src))
  {
    var to := Destination(fs, src, dst);
    var rel := Relocate(fs, src, to);
    if !ParentExists(fs, to) {
      var r := MissingDirs(fs, to) + rel;
      assert OsMove(fs, faults, src, dst).fs == r;
      forall q | q in r && !InTree(q, to)
        ensures (q in fs && !InTree(q, src)) || (q !in fs && q in Chain(to) && r[q] == Dir)
      {
        if q !in rel {
          assert q in MissingDirs(fs, to);
        }
      }
    }
  }

  /** `shutil.copy2(src, dst)`: a regular file arrives at the destination.
      `copyfile` opens the destination for writing, which follows a link
      there: the link stays and its target is written, and a dangling link
      whose target's directory is missing makes it raise. Copying a file
      onto itself, through links or not, raises `SameFileError`. */
  function OsCopy2(fs: Fs, faults: Faults, src: string, dst: string): (r: Res)
    ensures var w := Resolve(fs, Destination(fs, src, dst));
            r.ok <==> && Fault(Copy, src) !in faults && IsFile(fs, src) && w != Resolve(fs, src)
                      && !(w in fs && fs[w].Dir?) && ParentExists(fs, w)
    ensures r.ok ==> r.fs == fs[Resolve(fs, Destination(fs, src, dst)) := File]
    ensures !r.ok ==> r.fs == fs
  {
    var w := Resolve(fs, Destination(fs, src, dst));
    if Fault(Copy, src) in faults || !IsFile(fs, src) || w == Resolve(fs, src) || (w in fs && fs[w].Dir?) || !ParentExists(fs, w) then Res(false, fs)
    else Res(true, fs[w := File])
  }

  /** `os.symlink(target, link, dirLink)`: fails when `link` exists or its
      directory does not. */
  function OsSymlink(fs: Fs, faults: Faults, target: string, link: string, dirLink: bool): (r: Res)
    ensures r.ok <==> Fault(Symlink, link) !in faults && link !in fs && ParentExists(fs, link)
    ensures r.fs == if r.ok then fs[link := Link(target, dirLink)] else fs
  {
    if Fault(Symlink, link) in faults || link in fs || !ParentExists(fs, link) then Res(false, fs)
    else Res(true, fs[link := Link(target, dirLink)])
  }

  /** The link branch of `copy_file`: the destination is unlinked if present
      (`os.unlink` raises on a directory), then a link to the same target is
      made there; when `os.symlink` raises, the unlinked entry stays gone. */
  function CopyLink(fs: Fs, faults: Faults, src: string, dst: string): (r: Res)
    requires IsLink(fs, src)
    ensures var to := Destination(fs, src, dst);
            var unlinkFails := to in fs && (Fault(Unlink, to) in faults || fs[to].Dir?);
            && (r.ok <==> !unlinkFails && Fault(Symlink, to) !in faults && ParentExists(fs - {to}, to))
            && (r.ok ==> r.fs == (fs - {to})[to := Link(fs[src].target, false)])
            && (!r.ok ==> r.fs == if unlinkFails then fs else fs - {to})
  {
    var to := Destination(fs, src, dst);
    if to in fs && (Fault(Unlink, to) in faults || fs[to].Dir?) then Res(false, fs)
    else
      var cleared := fs - {to};
      OsSymlink(cleared, faults, fs[src].target, to, false)
  }

  /** Whether `copytree` can copy the entry at `q`: a directory (followed
      through a link too), a regular file, or, when `copy_file` recreates
      links instead of following them, any link. A special file, or a
      dangling link that `copy2` follows, makes the copy raise. */
  predicate Copyable(fs: Fs, q: string, follow: bool) {
    IsDir(fs, q) || IsFile(fs, q) || (IsLink(fs, q) && !follow)
  }

  /** The kind the copy of `q` gets: `copytree` makes a directory for a
      directory, `copy_file` recreates a link or copies what it names. */
  function CopiedKind(fs: Fs, q: string, follow: bool): Kind
    requires q in fs
  {
    if IsDir(fs, q) then Dir
    else if IsLink(fs, q) && !follow then Link(fs[q].target, false)
    else File
  }

  /** Every existing entry of `p`'s dirname chain, `p` included, is a
      directory: otherwise `os.makedirs(p, exist_ok=True)` raises,
      FileExistsError on `p` itself and NotADirectoryError below a file. */
  predicate ChainOpen(fs: Fs, p: string) {
    forall q :: q in Chain(p) && q != "" && q in fs ==> IsDir(fs, q)
  }

  /** No ancestor of a path, nor the path, lies strictly below it. */
  lemma ChainNotUnder(q: string, p: string)
    requires q in Chain(p)
    ensures !Under(q, p)
  {
  }

  /** The directories of `p`'s chain that do not exist yet. */
  function MissingDirs(fs: Fs, p: string): Fs {
    map q | q in Chain(p) && q != "" && q !in fs :: Dir
  }

  /** `os.makedirs(p, exist_ok=True)` when it does not raise: the missing
      directories are made, so the whole chain is directories, and nothing
      else changes. */
  function MakeDirs(fs: Fs, p: string): (r: Fs)
    requires ChainOpen(fs, p)
    ensures forall q :: q in Chain(p) && q != "" ==> IsDir(r, q)
    ensures forall q :: q in fs ==> q in r && r[q] == fs[q]
    ensures forall q :: q in r && q !in fs ==> q in Chain(p) && r[q] == Dir
  {
    fs + MissingDirs(fs, p)
  }

  /** The entries below `src` that `copytree` copies. */
  function CopiedSources(fs: Fs, src: string, follow: bool): set<string> {
    set q | q in fs && Under(q, src) && Copyable(fs, q, follow)
  }

  /** The copies `copytree` makes below its destination root. */
  function CopiedEntries(fs: Fs, src: string, to: string, follow: bool): (c: Fs)
    ensures forall q :: q in CopiedSources(fs, src, follow) ==>
              Rebase(q, src, to) in c && c[Rebase(q, src, to)] == CopiedKind(fs, q, follow)
    ensures forall k :: k in c ==> Under(k, to)
  {
    var from := CopiedSources(fs, src, follow);
    forall q1, q2 | q1 in from && q2 in from && Rebase(q1, src, to) == Rebase(q2, src, to)
      ensures q1 == q2
    {
      RebaseInjective(q1, q2, src, to);
    }
    var c := map q | q in from :: Rebase(q, src, to) := CopiedKind(fs, q, follow);
    forall q | q in from ensures c[Rebase(q, src, to)] == CopiedKind(fs, q, follow) {
      var q' :| q' in from && Rebase(q', src, to) == Rebase(q, src, to) && c[Rebase(q, src, to)] == CopiedKind(fs, q', follow);
      RebaseInjective(q, q', src, to);
    }
    c
  }

  /** A copied link keeps the target of the link it copies, so a path that
      no link names is named by no copy either. */
  lemma CopiedEntriesUntargeted(fs: Fs, src: string, to: string, follow: bool, q: string)
    requires Untargeted(fs, q)
    ensures Untargeted(CopiedEntries(fs, src, to, follow), q)
  {
    var c := CopiedEntries(fs, src, to, follow);
    forall k | k in c && c[k].Link?
      ensures c[k].target != q
    {
      var q' :| q' in CopiedSources(fs, src, follow) && Rebase(q', src, to) == k;
      assert c[k] == CopiedKind(fs, q', follow);
    }
  }

  /** What `copytree` leaves once it has started: the missing directories
      of the destination made, and a copy of every copyable entry below
      `src` at its rebased path; entries already in the destination tree
      and not copied over stay. */
  function CopyTreeFs(fs: Fs, src: string, to: string, follow: bool): (r: Fs)
    requires ChainOpen(fs, to)
    ensures forall q :: q in Chain(to) && q != "" ==>
              q in r && if q in fs then IsDir(fs, q) && r[q] == fs[q] else r[q] == Dir
    ensures forall q :: q in CopiedSources(fs, src, follow) ==>
              Rebase(q, src, to) in r && r[Rebase(q, src, to)] == CopiedKind(fs, q, follow)
    ensures forall q :: q in fs && !Under(q, to) ==> q in r && r[q] == fs[q]
    ensures forall q :: q in r && q !in fs ==> q in Chain(to) || Under(q, to)
    ensures forall q :: Untargeted(fs, q) ==> Untargeted(r, q)
  {
    var r := MakeDirs(fs, to) + CopiedEntries(fs, src, to, follow);
    forall q | Untargeted(fs, q) ensures Untargeted(r, q) {
      CopiedEntriesUntargeted(fs, src, to, follow, q);
    }
    forall q | q in Chain(to) && q != ""
      ensures q in r && if q in fs then IsDir(fs, q) && r[q] == fs[q] else r[q] == Dir
    {
      ChainNotUnder(q, to);
    }
    r
  }

  /** `to` is a child of `src` with nothing at or below it, as in
      `cp -r d d`: `copytree` lists `src` before it makes `to`, so it only
      ever reads the original tree. */
  predicate FreshChild(fs: Fs, src: string, to: string) {
    Dirname(to) == src && forall q :: q in fs ==> !InTree(q, to)
  }

  /** `copytree` raises before copying anything: the source is not a
      directory, `makedirs` on the destination root raises, or the
      destination lies in the source's own tree other than as a fresh
      child. */
  predicate CopyTreeRefused(fs: Fs, faults: Faults, src: string, to: string) {
    || Fault(CopyTree, src) in faults || !IsDir(fs, src) || !ChainOpen(fs, to)
    || (InTree(to, src) && !FreshChild(fs, src, to))
  }

  /** `shutil.copytree(src, join(dst, basename(src)), copy_function=copy_file,
      dirs_exist_ok=True)`: unless refused at its root, it copies every
      entry it can and raises at the end when some entry could not be
      copied, keeping the copies it made. */
  function OsCopyTree(fs: Fs, faults: Faults, src: string, dst: string, follow: bool): (r: Res)
    ensures var to := Join(dst, Basename(src));
            && (CopyTreeRefused(fs, faults, src, to) ==> !r.ok && r.fs == fs)
            && (!CopyTreeRefused(fs, faults, src, to) ==>
                  && (r.ok <==> forall q :: q in fs && Under(q, src) ==> Copyable(fs, q, follow))
                  && r.fs == CopyTreeFs(fs, src, to, follow))
  {
    var to := Join(dst, Basename(src));
    if CopyTreeRefused(fs, faults, src, to) then Res(false, fs)
    else Res(forall q :: q in fs && Under(q, src) ==> Copyable(fs, q, follow), CopyTreeFs(fs, src, to, follow))
  }
}
