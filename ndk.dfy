/** The name parsing and selection part of `ShellCmd.ndk_root`: directory
    names of the forms `X.Y.Z[.w]` and `android-ndk-rN<letters>` get version
    keys, and the first directory with the greatest key is chosen. */
module Ndk {
  import opened Text
  import opened FileSystem
  import opened Versions
  import Runs

  /** `\w` on ASCII. */
  predicate IsWordChar(c: char) {
    IsAsciiAlpha(c) || IsDigit(c) || c == '_'
  }

  predicate IsWord(s: string) {
    |s| > 0 && forall i :: 0 <= i < |s| ==> IsWordChar(s[i])
  }

  /** `^(\d+)\.(\d+)\.(\d+)(?:\.\w+)?$`: three numbers and an optional word,
      separated by dots; the key is the three numbers. */
  function VersionKey(name: string): (r: Option<seq<nat>>)
    ensures r.Some? ==> |r.value| == 3
  {
    var f := Split(BeforeFinalNewline(name), '.');
    if (|f| == 3 || (|f| == 4 && IsWord(f[3]))) && IsDigits(f[0]) && IsDigits(f[1]) && IsDigits(f[2])
    then Some([DigitsValue(f[0]), DigitsValue(f[1]), DigitsValue(f[2])])
    else None
  }

  const NdkPrefix := "android-ndk-r"

  /** Length of the longest digit prefix. */
  function DigitRun(s: string): (n: nat)
    ensures n <= |s|
    ensures forall i :: 0 <= i < n ==> IsDigit(s[i])
    ensures n < |s| ==> !IsDigit(s[n])
  {
    if s == [] || !IsDigit(s[0]) then 0 else 1 + DigitRun(s[1..])
  }

  /** `^android-ndk-r(\d+)([a-z]+)$`: the release number and its letters. */
  function ReleaseParts(name: string): (r: Option<(string, string)>)
    ensures r.Some? ==> IsDigits(r.value.0) && |r.value.1| > 0
                        && (forall i :: 0 <= i < |r.value.1| ==> IsAsciiLower(r.value.1[i]))
                        && BeforeFinalNewline(name) == NdkPrefix + r.value.0 + r.value.1
  {
    var b := BeforeFinalNewline(name);
    if !StartsWith(b, NdkPrefix) then None
    else
      var rest := b[|NdkPrefix|..];
      var n := DigitRun(rest);
      if n == 0 || n == |rest| || !(forall i :: n <= i < |rest| ==> IsAsciiLower(rest[i])) then None
      else
        assert b == NdkPrefix + rest[..n] + rest[n..];
        Some((rest[..n], rest[n..]))
  }

  /** `chr(ord(x) + ord('0') - ord('a'))`: `a` to `j` become `0` to `9`. */
  function LetterDigit(c: char): char
    requires IsAsciiLower(c)
  {
    (c as int - 'a' as int + '0' as int) as char
  }

  function LetterDigits(s: string): (r: string)
    requires forall i :: 0 <= i < |s| ==> IsAsciiLower(s[i])
    ensures |r| == |s|
    ensures forall i :: 0 <= i < |s| ==> r[i] == LetterDigit(s[i])
  {
    if s == [] then [] else [LetterDigit(s[0])] + LetterDigits(s[1..])
  }

  /** What a directory name contributes: no key, a key, or the `ValueError`
      that `int()` raises on a letter after `j`, which escapes `ndk_root`. */
  datatype NameKey = NoKey | Key(key: seq<nat>) | Raises

  function KeyOf(name: string): (r: NameKey)
    ensures r.Key? ==> |r.key| == 3
  {
    match VersionKey(name)
    case Some(k) => Key(k)
    case None =>
      match ReleaseParts(name)
      case None => NoKey
      case Some((digits, letters)) =>
        var mapped := LetterDigits(letters);
        if forall i :: 0 <= i < |letters| ==> letters[i] <= 'j' then
          assert forall i :: 0 <= i < |mapped| ==> IsDigit(mapped[i]);
          Key([DigitsValue(digits), DigitsValue(mapped), 0])
        else Raises
  }

  /** A candidate directory and its key. */
  datatype Candidate = Candidate(name: string, key: seq<nat>)

  datatype Scan = Crashed | Candidates(list: seq<Candidate>)

  /** The listing loop: names with the toolchain file and a key are kept in
      order; a name whose key raises ends the scan. */
  function ScanNames(names: seq<string>, hasToolchain: string -> bool): (r: Scan)
    ensures r.Candidates? ==> forall i :: 0 <= i < |r.list| ==> |r.list[i].key| == 3
    decreases |names|
  {
    if names == [] then Candidates([])
    else
      match ScanNames(names[..|names| - 1], hasToolchain)
      case Crashed => Crashed
      case Candidates(c) =>
        var name := names[|names| - 1];
        if !hasToolchain(name) then Candidates(c)
        else match KeyOf(name)
          case NoKey => Candidates(c)
          case Raises => Crashed
          case Key(k) => Candidates(c + [Candidate(name, k)])
  }

  /** Candidate `i` has the greatest key, and every earlier one a smaller
      key. */
  predicate Newest(c: seq<Candidate>, i: int) {
    && 0 <= i < |c|
    && (forall j :: 0 <= j < |c| ==> Cmp(c[j].key, c[i].key) <= 0)
    && (forall j :: 0 <= j < i ==> Cmp(c[j].key, c[i].key) < 0)
  }

  /** The index of the first candidate with the greatest key: what
      `sorted(..., reverse=True)[0]` picks, since the sort is stable. */
  function FirstMax(c: seq<Candidate>): (i: nat)
    requires |c| > 0
    ensures i < |c| && Newest(c, i)
  {
    if |c| == 1 then
      CmpZero(c[0].key, c[0].key);
      0
    else
      var init := c[..|c| - 1];
      var j := FirstMax(init);
      assert forall k :: 0 <= k < |init| ==> init[k] == c[k];
      var last := c[|c| - 1];
      if Cmp(last.key, c[j].key) == 1 then
        forall k | 0 <= k < |c| - 1 ensures Cmp(c[k].key, last.key) < 0 {
          CmpSwap(last.key, c[j].key);
          CmpTrans(c[k].key, c[j].key, last.key);
        }
        CmpZero(last.key, last.key);
        |c| - 1
      else
        CmpSwap(last.key, c[j].key);
        j
  }

  datatype NdkResult = NoSdk | Found(path: string) | NotFound | Crash

  /** The chosen directory joined to the SDK directory, with forward
      slashes. */
  function NdkPath(sdkDir: string, name: string): string {
    ReplaceChar(Join(sdkDir, name), '\\', '/')
  }

  /** `ndk_root` from the SDK directory on: the first listed directory among
      those with the greatest key, `''` when there is none. */
  function NdkRoot(sdkDir: string, names: seq<string>, hasToolchain: string -> bool): NdkResult {
    if sdkDir == "" then NoSdk
    else match ScanNames(names, hasToolchain)
      case Crashed => Crash
      case Candidates(c) => if c == [] then NotFound else Found(NdkPath(sdkDir, c[FirstMax(c)].name))
  }

  /** The listing loop. */
  method ScanLoop(names: seq<string>, hasToolchain: string -> bool) returns (crashed: bool, dirs: seq<Candidate>)
    ensures ScanNames(names, hasToolchain) == if crashed then Crashed else Candidates(dirs)
  {
    dirs := [];
    var i := 0;
    while i < |names|
      invariant 0 <= i <= |names|
      invariant ScanNames(names[..i], hasToolchain) == Candidates(dirs)
    {
      ScanStep(names, hasToolchain, i);
      var name := names[i];
      if hasToolchain(name) {
        var key := KeyOf(name);
        match key
        case NoKey =>
        case Raises =>
          ScanCrashedStays(names, hasToolchain, i + 1);
          return true, dirs;
        case Key(k) =>
          dirs := dirs + [Candidate(name, k)];
      }
      i := i + 1;
    }
    assert names[..|names|] == names;
    crashed := false;
  }

  /** `sorted(ndk_dirs, key=..., reverse=True)[0]` as a scan for the first
      greatest key. */
  method PickNewest(dirs: seq<Candidate>) returns (best: nat)
    requires |dirs| > 0
    ensures best == FirstMax(dirs)
  {
    best := 0;
    var j := 1;
    while j < |dirs|
      invariant 1 <= j <= |dirs|
      invariant best == FirstMax(dirs[..j])
    {
      assert dirs[..j + 1][..j] == dirs[..j];
      Prefix(dirs, j);
      if Cmp(dirs[j].key, dirs[best].key) == 1 {
        best := j;
      }
      j := j + 1;
    }
    assert dirs[..|dirs|] == dirs;
  }

  lemma Prefix(dirs: seq<Candidate>, j: nat)
    requires 0 < j < |dirs|
    ensures FirstMax(dirs[..j + 1]) == (if Cmp(dirs[j].key, dirs[FirstMax(dirs[..j])].key) == 1 then j else FirstMax(dirs[..j]))
  {
    var c := dirs[..j + 1];
    assert c[..|c| - 1] == dirs[..j];
    assert c[|c| - 1] == dirs[j];
    var m := FirstMax(dirs[..j]);
    assert dirs[..j][m] == dirs[m] == c[m];
  }

  method ChooseNdk(sdkDir: string, names: seq<string>, hasToolchain: string -> bool) returns (r: NdkResult)
    ensures r == NdkRoot(sdkDir, names, hasToolchain)
  {
    if sdkDir == "" {
      return NoSdk;
    }
    var crashed, dirs := ScanLoop(names, hasToolchain);
    if crashed {
      return Crash;
    }
    if dirs == [] {
      return NotFound;
    }
    var best := PickNewest(dirs);
    r := Found(NdkPath(sdkDir, dirs[best].name));
  }

  /** `run__ndk_root`: the path on stdout with status 0 when one was found,
      ENOENT and nothing otherwise; nothing when a key raised, since that
      exception escapes the command. */
  function NdkRootCommand(r: NdkResult): (o: Option<(int, string)>)
    ensures o.None? <==> r.Crash?
    ensures o.Some? ==> (o.value.0 == 0 <==> r.Found? && r.path != "")
    ensures o.Some? && o.value.0 == 0 ==> o.value.1 == r.path
    ensures o.Some? && o.value.0 != 0 ==> o.value == (Runs.ENOENT, "")
  {
    match r
    case Crash => None
    case Found(p) => if p != "" then Some((0, p)) else Some((Runs.ENOENT, ""))
    case _ => Some((Runs.ENOENT, ""))
  }

  /** One more name in the listing loop. */
  lemma ScanStep(names: seq<string>, hasToolchain: string -> bool, i: nat)
    requires i < |names|
    ensures ScanNames(names[..i + 1], hasToolchain) ==
            match ScanNames(names[..i], hasToolchain)
            case Crashed => Crashed
            case Candidates(c) =>
              if !hasToolchain(names[i]) then Candidates(c)
              else match KeyOf(names[i])
                case NoKey => Candidates(c)
                case Raises => Crashed
                case Key(k) => Candidates(c + [Candidate(names[i], k)])
  {
    assert names[..i + 1][..i] == names[..i];
    assert names[..i + 1][i] == names[i];
  }

  /** Once a key raises, the scan stays crashed. */
  lemma {:induction false} ScanCrashedStays(names: seq<string>, hasToolchain: string -> bool, n: nat)
    requires n <= |names| && ScanNames(names[..n], hasToolchain) == Crashed
    ensures ScanNames(names, hasToolchain) == Crashed
    decreases |names| - n
  {
    if n < |names| {
      assert names[..n + 1][..n] == names[..n];
      ScanCrashedStays(names, hasToolchain, n + 1);
    } else {
      assert names[..n] == names;
    }
  }

  /** The chosen directory has the greatest key among the candidates, and no
      earlier candidate ties with it. */
  lemma ChosenIsNewest(sdkDir: string, names: seq<string>, hasToolchain: string -> bool)
    requires NdkRoot(sdkDir, names, hasToolchain).Found?
    ensures ScanNames(names, hasToolchain).Candidates?
    ensures var c := ScanNames(names, hasToolchain).list;
            exists i :: Newest(c, i) && NdkRoot(sdkDir, names, hasToolchain).path == NdkPath(sdkDir, c[i].name)
  {
    var scan := ScanNames(names, hasToolchain);
    assert scan.Candidates? && scan.list != [];
    var i := FirstMax(scan.list);
    assert NdkRoot(sdkDir, names, hasToolchain) == Found(NdkPath(sdkDir, scan.list[i].name));
  }

  /** Newest keys are unique up to equality: two candidates that are both
      newest have equal keys. */
  lemma NewestUnique(c: seq<Candidate>, i: int, j: int)
    requires Newest(c, i) && Newest(c, j)
    ensures i == j
  {
    if i < j {
      assert Cmp(c[i].key, c[j].key) < 0;
      assert Cmp(c[j].key, c[i].key) <= 0;
      CmpSwap(c[i].key, c[j].key);
    } else if j < i {
      assert Cmp(c[j].key, c[i].key) < 0;
      assert Cmp(c[i].key, c[j].key) <= 0;
      CmpSwap(c[j].key, c[i].key);
    }
  }

  lemma DigitsHaveNo(s: string, c: char)
    requires IsDigits(s) && !IsDigit(c)
    ensures !Contains(s, c)
  {
    assert forall i :: 0 <= i < |s| ==> IsDigit(s[i]);
  }

  lemma WordHasNo(s: string, c: char)
    requires IsWord(s) && !IsWordChar(c)
    ensures !Contains(s, c)
  {
    assert forall i :: 0 <= i < |s| ==> IsWordChar(s[i]);
  }

  lemma ThreeFields(x: string, y: string, z: string)
    requires IsDigits(x) && IsDigits(y) && IsDigits(z)
    ensures Split(x + "." + y + "." + z, '.') == [x, y, z]
  {
    DigitsHaveNo(x, '.');
    DigitsHaveNo(y, '.');
    DigitsHaveNo(z, '.');
    SplitNoSep(x, '.');
    SplitNoSep(y, '.');
    SplitNoSep(z, '.');
    assert x + "." + y + "." + z == x + ['.'] + (y + ['.'] + z);
    SplitAppend(y, '.', z);
    SplitAppend(x, '.', y + ['.'] + z);
  }

  lemma VersionFields(x: string, y: string, z: string, w: string)
    requires IsDigits(x) && IsDigits(y) && IsDigits(z) && (w == "" || IsWord(w))
    ensures var name := x + "." + y + "." + z + (if w == "" then "" else "." + w);
            Split(BeforeFinalNewline(name), '.') == if w == "" then [x, y, z] else [x, y, z, w]
  {
    var xyz := x + "." + y + "." + z;
    ThreeFields(x, y, z);
    var name := xyz + (if w == "" then "" else "." + w);
    if w == "" {
      assert name == xyz;
      assert name[|name| - 1] == z[|z| - 1];
    } else {
      WordHasNo(w, '.');
      SplitNoSep(w, '.');
      assert name == xyz + ['.'] + w;
      SplitAppend(xyz, '.', w);
      assert name[|name| - 1] == w[|w| - 1];
    }
    assert !EndsWith(name, "\n");
  }

  /** `X.Y.Z` and `X.Y.Z.w` both key as `[X, Y, Z]`. */
  lemma VersionNameKey(x: string, y: string, z: string, w: string)
    requires IsDigits(x) && IsDigits(y) && IsDigits(z) && (w == "" || IsWord(w))
    ensures var name := x + "." + y + "." + z + (if w == "" then "" else "." + w);
            KeyOf(name) == Key([DigitsValue(x), DigitsValue(y), DigitsValue(z)])
  {
    VersionFields(x, y, z, w);
    var name := x + "." + y + "." + z + (if w == "" then "" else "." + w);
    assert VersionKey(name) == Some([DigitsValue(x), DigitsValue(y), DigitsValue(z)]);
  }

  /** A release name never has the version form. */
  lemma ReleaseNameNotVersion(digits: string, letters: string)
    requires IsDigits(digits) && |letters| > 0 && forall i :: 0 <= i < |letters| ==> IsAsciiLower(letters[i])
    ensures BeforeFinalNewline(NdkPrefix + digits + letters) == NdkPrefix + digits + letters
    ensures VersionKey(NdkPrefix + digits + letters) == None
  {
    var name := NdkPrefix + digits + letters;
    assert name[|name| - 1] == letters[|letters| - 1];
    assert !EndsWith(name, "\n");
    var f := Split(name, '.');
    // The first field starts with `a`, so it is not a number.
    assert name[0] == 'a';
    SplitFirstField(name);
    assert !IsDigits(f[0]);
  }

  /** The first field of a split starts with the string's first character
      when that is not the separator. */
  lemma {:induction false} SplitFirstField(s: string)
    requires s != [] && s[0] != '.'
    ensures Split(s, '.')[0] != [] && Split(s, '.')[0][0] == s[0]
  {
  }

  /** `android-ndk-rN<letters>` with letters up to `j` keys as
      `[N, letters read as digits, 0]`; a later letter makes `int()` raise. */
  lemma ReleaseNameKey(digits: string, letters: string)
    requires IsDigits(digits) && |letters| > 0 && forall i :: 0 <= i < |letters| ==> IsAsciiLower(letters[i])
    ensures var name := NdkPrefix + digits + letters;
            (forall i :: 0 <= i < |letters| ==> letters[i] <= 'j') ==>
              KeyOf(name) == Key([DigitsValue(digits), DigitsValue(LetterDigits(letters)), 0])
    ensures var name := NdkPrefix + digits + letters;
            (exists i :: 0 <= i < |letters| && letters[i] > 'j') ==> KeyOf(name) == Raises
  {
    var name := NdkPrefix + digits + letters;
    ReleaseNameNotVersion(digits, letters);
    assert StartsWith(name, NdkPrefix);
    var rest := name[|NdkPrefix|..];
    assert rest == digits + letters;
    DigitRunPrefix(digits, letters);
    assert rest[..|digits|] == digits && rest[|digits|..] == letters;
    assert ReleaseParts(name) == Some((digits, letters));
  }

  lemma {:induction false} DigitRunPrefix(digits: string, letters: string)
    requires forall i :: 0 <= i < |digits| ==> IsDigit(digits[i])
    requires letters != [] && IsAsciiLower(letters[0])
    ensures DigitRun(digits + letters) == |digits|
    decreases |digits|
  {
    if digits == [] {
      assert digits + letters == letters;
    } else {
      assert (digits + letters)[1..] == digits[1..] + letters;
      DigitRunPrefix(digits[1..], letters);
    }
  }
}
