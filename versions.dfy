/** `ShellCmd.run__cmpver` (and the identical `cmpver` branch of
    `run_shell_command`): two dotted versions padded with `.0.0.0`, cut to
    four components and compared as lists of integers. */
module Versions {
  import opened Text
  import opened Runs

  /** The four components compared: `(v + '.0.0.0').split('.')[:4]`. */
  function Components(v: string): (r: seq<string>)
    ensures |r| == 4
  {
    var parts := Split(v + ".0.0.0", '.');
    PaddedSplit(v);
    parts[..4]
  }

  lemma ZerosSplit()
    ensures Split("0.0.0", '.') == ["0", "0", "0"]
    ensures Split("0.0", '.') == ["0", "0"]
    ensures Split("0", '.') == ["0"]
  {
    assert "0.0.0" == "0" + ['.'] + "0.0";
    assert "0.0" == "0" + ['.'] + "0";
    SplitNoSep("0", '.');
    SplitAppend("0", '.', "0");
    SplitAppend("0", '.', "0.0");
  }

  /** Padding appends three zero components to the split. */
  lemma PaddedSplit(v: string)
    ensures Split(v + ".0.0.0", '.') == Split(v, '.') + ["0", "0", "0"]
  {
    assert v + ".0.0.0" == v + ['.'] + "0.0.0";
    SplitAppend(v, '.', "0.0.0");
    ZerosSplit();
  }

  /** Python's `int()` on a component, restricted to digit strings; anything
      else (the empty string in particular) raises `ValueError`. */
  function ParseComponent(s: string): Option<nat> {
    if IsDigits(s) then Some(DigitsValue(s)) else None
  }

  function ParseAll(cs: seq<string>): (r: Option<seq<nat>>)
    ensures r.Some? ==> |r.value| == |cs|
    ensures r.Some? <==> forall i :: 0 <= i < |cs| ==> IsDigits(cs[i])
  {
    if cs == [] then Some([])
    else
      var head := ParseComponent(cs[0]);
      var tail := ParseAll(cs[1..]);
      assert (forall i :: 0 <= i < |cs| ==> IsDigits(cs[i])) ==> forall i :: 0 <= i < |cs[1..]| ==> IsDigits(cs[1..][i]);
      if head.Some? && tail.Some? then Some([head.value] + tail.value) else None
  }

  /** The integer list a version argument stands for, if it parses. */
  function Version(v: string): (r: Option<seq<nat>>)
    ensures r.Some? ==> |r.value| == 4
  {
    ParseAll(Components(v))
  }

  /** Python's comparison of two integer lists: -1, 0 or 1. */
  function Cmp(a: seq<nat>, b: seq<nat>): (c: int)
    ensures -1 <= c <= 1
  {
    if a == [] && b == [] then 0
    else if a == [] then -1
    else if b == [] then 1
    else if a[0] < b[0] then -1
    else if a[0] > b[0] then 1
    else Cmp(a[1..], b[1..])
  }

  /** `a` is smaller than `b` at index `k`: they agree before it. */
  predicate LessAt(a: seq<nat>, b: seq<nat>, k: int) {
    0 <= k < |a| && k < |b| && a[..k] == b[..k] && a[k] < b[k]
  }

  lemma {:induction false} CmpSwap(a: seq<nat>, b: seq<nat>)
    ensures Cmp(b, a) == -Cmp(a, b)
    decreases |a|
  {
    if a != [] && b != [] && a[0] == b[0] {
      CmpSwap(a[1..], b[1..]);
    }
  }

  lemma {:induction false} CmpZero(a: seq<nat>, b: seq<nat>)
    ensures Cmp(a, b) == 0 <==> a == b
    decreases |a|
  {
    if a != [] && b != [] {
      CmpZero(a[1..], b[1..]);
      if a[0] == b[0] {
        assert a == [a[0]] + a[1..] && b == [b[0]] + b[1..];
      }
    }
  }

  /** For lists of the same length, `Cmp` answers -1 exactly when the first
      difference is smaller on the left. */
  lemma {:induction false} CmpLess(a: seq<nat>, b: seq<nat>)
    requires |a| == |b|
    ensures Cmp(a, b) == -1 <==> exists k :: LessAt(a, b, k)
    decreases |a|
  {
    if a != [] {
      CmpLess(a[1..], b[1..]);
      if Cmp(a, b) == -1 {
        if a[0] < b[0] {
          assert LessAt(a, b, 0);
        } else {
          var k :| LessAt(a[1..], b[1..], k);
          assert a[..k + 1] == [a[0]] + a[1..][..k];
          assert b[..k + 1] == [b[0]] + b[1..][..k];
          assert LessAt(a, b, k + 1);
        }
      }
      if exists k :: LessAt(a, b, k) {
        var k :| LessAt(a, b, k);
        if k > 0 {
          assert a[0] == a[..k][0] == b[..k][0] == b[0];
          assert a[1..][..k - 1] == a[1..k] == b[1..k] == b[1..][..k - 1];
          assert LessAt(a[1..], b[1..], k - 1);
        }
      }
    }
  }

  /** `Cmp` is transitive: it is a total preorder, and with `CmpZero` an
      order. */
  lemma {:induction false} CmpTrans(a: seq<nat>, b: seq<nat>, c: seq<nat>)
    ensures Cmp(a, b) <= 0 && Cmp(b, c) <= 0 ==> Cmp(a, c) <= 0
    ensures Cmp(a, b) < 0 && Cmp(b, c) <= 0 ==> Cmp(a, c) < 0
    ensures Cmp(a, b) <= 0 && Cmp(b, c) < 0 ==> Cmp(a, c) < 0
    decreases |a|
  {
    if a != [] && b != [] && c != [] {
      CmpTrans(a[1..], b[1..], c[1..]);
    }
  }

  /** What `cmpver` prints, its exit status and its stderr. */
  datatype CmpVerOut = CmpVerOut(out: string, status: int, err: seq<Message>)

  /** `cmpver`: `+`/1 when the first version is greater, `0`/0 when equal,
      `-`/2 when smaller; a missing argument or a bad component prints `''`
      and gives 8; with `-f` the status is 0 whatever was printed. */
  function CmpVer(args: seq<string>, force: bool): (r: CmpVerOut)
    ensures r.out in {"+", "0", "-", ""}
    ensures force ==> r.status == 0
    ensures !force && r.out == "+" ==> r.status == 1
    ensures !force && r.out == "0" ==> r.status == 0
    ensures !force && r.out == "-" ==> r.status == 2
    ensures !force && r.out == "" ==> r.status == EINVAL
    ensures r.err == (if r.out == "" then [InvalidArguments] else [])
    ensures r.out == "" <==> |args| < 2 || Version(args[0]).None? || Version(args[1]).None?
  {
    var code: (int, string) :=
      if |args| < 2 then (EINVAL, "")
      else match (Version(args[0]), Version(args[1]))
        case (Some(v1), Some(v2)) =>
          if Cmp(v1, v2) == 1 then (1, "+") else if v1 == v2 then (0, "0") else (2, "-")
        case _ => (EINVAL, "");
    CmpVerOut(code.1, if force then 0 else code.0, if code.1 == "" then [InvalidArguments] else [])
  }

  /** The result follows the comparison of the two integer lists. */
  lemma CmpVerOrder(a: string, b: string, rest: seq<string>, force: bool)
    requires Version(a).Some? && Version(b).Some?
    ensures var r := CmpVer([a, b] + rest, force);
            var v1, v2 := Version(a).value, Version(b).value;
            && (r.out == "+" <==> exists k :: LessAt(v2, v1, k))
            && (r.out == "0" <==> v1 == v2)
            && (r.out == "-" <==> exists k :: LessAt(v1, v2, k))
  {
    var v1, v2 := Version(a).value, Version(b).value;
    CmpZero(v1, v2);
    CmpSwap(v1, v2);
    CmpLess(v1, v2);
    CmpLess(v2, v1);
  }

  /** Swapping the arguments swaps `+` and `-`. */
  lemma CmpVerSwap(a: string, b: string, force: bool)
    ensures CmpVer([a, b], force).out == "+" <==> CmpVer([b, a], force).out == "-"
    ensures CmpVer([a, b], force).out == "0" <==> CmpVer([b, a], force).out == "0"
    ensures CmpVer([a, b], force).out == "" <==> CmpVer([b, a], force).out == ""
  {
    if Version(a).Some? && Version(b).Some? {
      CmpSwap(Version(a).value, Version(b).value);
      CmpZero(Version(a).value, Version(b).value);
    }
  }

  /** A version compared with itself gives `0`/0. */
  lemma CmpVerReflexive(a: string)
    requires Version(a).Some?
    ensures CmpVer([a, a], false) == CmpVerOut("0", 0, [])
  {
    CmpZero(Version(a).value, Version(a).value);
  }

  /** With fewer than four components, appending `.0` changes nothing: `1.2`
      equals `1.2.0.0`. */
  lemma PaddingIsNeutral(v: string)
    requires |Split(v, '.')| < 4
    ensures Components(v + ".0") == Components(v)
  {
    PaddedSplit(v);
    PaddedSplit(v + ".0");
    assert v + ".0" == v + ['.'] + "0";
    SplitAppend(v, '.', "0");
    ZerosSplit();
    var s := Split(v, '.');
    assert (s + ["0"] + ["0", "0", "0"])[..4] == (s + ["0", "0", "0"])[..4];
  }

  /** With four components or more, whatever follows the fourth is never
      parsed. */
  lemma TruncationIgnoresTail(v: string, tail: string)
    requires |Split(v, '.')| >= 4
    ensures Components(v + "." + tail) == Components(v)
  {
    PaddedSplit(v);
    PaddedSplit(v + "." + tail);
    assert v + "." + tail == v + ['.'] + tail;
    SplitAppend(v, '.', tail);
    var s := Split(v, '.');
    assert (s + Split(tail, '.') + ["0", "0", "0"])[..4] == s[..4];
    assert (s + ["0", "0", "0"])[..4] == s[..4];
  }

  /** Two dots in a row leave an empty component right after the pieces of
      what precedes them. */
  lemma EmptyComponentAt(a: string, b: string)
    requires |Split(a, '.')| < 4
    ensures Components(a + ".." + b)[|Split(a, '.')|] == ""
  {
    var v := a + ".." + b;
    assert v == a + ['.'] + ("" + ['.'] + b);
    SplitAppend(a, '.', "" + ['.'] + b);
    SplitAppend("", '.', b);
    assert "" + ['.'] + b == ['.'] + b;
    var s := Split(a, '.');
    assert Split(v, '.') == s + [""] + Split(b, '.');
    PaddedSplit(v);
    var parts := Split(v + ".0.0.0", '.');
    assert parts == s + [""] + Split(b, '.') + ["0", "0", "0"];
    assert parts[|s|] == "";
  }

  /** An empty component is not an integer: `1..2` is rejected. */
  lemma EmptyComponentRejected(a: string, b: string, force: bool)
    requires Version(b).Some? && |Split(a, '.')| < 4
    ensures var r := CmpVer([a + ".." + b, b], force);
            r.out == "" && r.err == [InvalidArguments] && r.status == (if force then 0 else EINVAL)
  {
    var v := a + ".." + b;
    EmptyComponentAt(a, b);
    assert !IsDigits(Components(v)[|Split(a, '.')|]);
    assert Version(v).None?;
  }

  /** Three dot-free pieces joined by dots split back into them. */
  lemma SplitThree(x: string, y: string, z: string)
    requires !Contains(x, '.') && !Contains(y, '.') && !Contains(z, '.')
    ensures Split(x + "." + y + "." + z, '.') == [x, y, z]
  {
    assert x + "." + y + "." + z == x + ['.'] + (y + ['.'] + z);
    SplitNoSep(x, '.');
    SplitNoSep(y, '.');
    SplitNoSep(z, '.');
    SplitAppend(y, '.', z);
    SplitAppend(x, '.', y + ['.'] + z);
  }

  lemma ParseFour(a: string, b: string, c: string, d: string, x: nat, y: nat, z: nat, w: nat)
    requires ParseComponent(a) == Some(x) && ParseComponent(b) == Some(y)
    requires ParseComponent(c) == Some(z) && ParseComponent(d) == Some(w)
    ensures ParseAll([a, b, c, d]) == Some([x, y, z, w])
  {
    assert [a, b, c, d][1..] == [b, c, d] && [b, c, d][1..] == [c, d] && [c, d][1..] == [d] && [d][1..] == [];
    assert ParseAll([]) == Some([]);
    assert [w] + [] == [w];
    assert ParseAll([d]) == Some([w]);
    assert [z] + [w] == [z, w] && [y] + [z, w] == [y, z, w] && [x] + [y, z, w] == [x, y, z, w];
    assert ParseAll([c, d]) == Some([z, w]);
    assert ParseAll([b, c, d]) == Some([y, z, w]);
  }

  lemma Version123()
    ensures Version("1.2.3") == Some([1, 2, 3, 0])
  {
    SplitThree("1", "2", "3");
    assert "1" + "." + "2" + "." + "3" == "1.2.3";
    PaddedSplit("1.2.3");
    assert Components("1.2.3") == ["1", "2", "3", "0"];
    DigitValues();
    ParseFour("1", "2", "3", "0", 1, 2, 3, 0);
  }

  lemma Version124()
    ensures Version("1.2.4") == Some([1, 2, 4, 0])
  {
    SplitThree("1", "2", "4");
    assert "1" + "." + "2" + "." + "4" == "1.2.4";
    PaddedSplit("1.2.4");
    assert Components("1.2.4") == ["1", "2", "4", "0"];
    DigitValues();
    ParseFour("1", "2", "4", "0", 1, 2, 4, 0);
  }

  /** `cmpver 1.2.3 1.2.4` prints `-` and gives 2. */
  lemma ExampleLess()
    ensures CmpVer(["1.2.3", "1.2.4"], false) == CmpVerOut("-", 2, [])
  {
    Version123();
    Version124();
    var a: seq<nat> := [1, 2, 3, 0];
    var b: seq<nat> := [1, 2, 4, 0];
    assert a[1..] == [2, 3, 0] && b[1..] == [2, 4, 0];
    assert a[1..][1..] == [3, 0] && b[1..][1..] == [4, 0];
    assert Cmp(a, b) == -1;
  }

  /** `cmpver 1.2 1.2.0.0` prints `0` and gives 0. */
  lemma ExampleEqual()
    ensures CmpVer(["1.2", "1.2.0.0"], false) == CmpVerOut("0", 0, [])
  {
    assert "1.2" == "1" + ['.'] + "2";
    SplitNoSep("1", '.');
    SplitNoSep("2", '.');
    SplitAppend("1", '.', "2");
    PaddedSplit("1.2");
    assert Components("1.2") == ["1", "2", "0", "0"];
    assert "1.2.0.0" == "1.2" + ['.'] + "0.0";
    SplitAppend("1.2", '.', "0.0");
    ZerosSplit();
    PaddedSplit("1.2.0.0");
    assert Components("1.2.0.0") == ["1", "2", "0", "0"];
    DigitValues();
    ParseFour("1", "2", "0", "0", 1, 2, 0, 0);
    assert Version("1.2") == Some([1, 2, 0, 0]);
    assert Version("1.2.0.0") == Some([1, 2, 0, 0]);
    CmpZero([1, 2, 0, 0], [1, 2, 0, 0]);
  }

  lemma DigitValues()
    ensures ParseComponent("0") == Some(0) && ParseComponent("1") == Some(1) && ParseComponent("2") == Some(2)
    ensures ParseComponent("3") == Some(3) && ParseComponent("4") == Some(4)
  {
    assert "0"[..0] == [] && "1"[..0] == [] && "2"[..0] == [] && "3"[..0] == [] && "4"[..0] == [];
  }
}
