/** The shared distribution helpers: the dotted version comparison of
  * `BaseDistribution` and the quickshell detection built on it. */
module DistrosBase {
  import opened Common
  import opened Strs
  import opened DepsTypes
  import Version

  // ---------------------------------------------------------------------
  // versionCompare

  /** The order `versionCompare` puts on two part lists: the first part that
    * differs decides, by Go's byte-wise string order; when one list is a
    * prefix of the other, the shorter one is smaller. */
  function PartsOrder(p1: seq<string>, p2: seq<string>): (r: int)
    ensures -1 <= r <= 1
  {
    if |p1| == 0 || |p2| == 0 then
      (if |p1| < |p2| then -1 else if |p1| > |p2| then 1 else 0)
    else if Less(p1[0], p2[0]) then -1
    else if Less(p2[0], p1[0]) then 1
    else PartsOrder(p1[1..], p2[1..])
  }

  /** The order of two versions. */
  function VersionOrder(v1: string, v2: string): (r: int)
  {
    PartsOrder(Split(v1, "."), Split(v2, "."))
  }

  /** `versionCompare`: walks the common parts and returns at the first
    * that differs, then compares the lengths. */
  method VersionCompare(v1: string, v2: string) returns (r: int)
    ensures r == VersionOrder(v1, v2)
  {
    var parts1 := Split(v1, ".");
    var parts2 := Split(v2, ".");
    var i := 0;
    while i < |parts1| && i < |parts2|
      invariant 0 <= i <= |parts1| && i <= |parts2|
      invariant PartsOrder(parts1[i..], parts2[i..]) == VersionOrder(v1, v2)
    {
      assert parts1[i..][1..] == parts1[i + 1..] && parts2[i..][1..] == parts2[i + 1..];
      if Less(parts1[i], parts2[i]) {
        return -1;
      }
      if Less(parts2[i], parts1[i]) {
        return 1;
      }
      i := i + 1;
    }
    if |parts1| < |parts2| {
      return -1;
    }
    if |parts1| > |parts2| {
      return 1;
    }
    return 0;
  }

  /** The part order is antisymmetric and 0 exactly on equal lists. */
  lemma {:induction false} PartsOrderAntisymmetric(p1: seq<string>, p2: seq<string>)
    ensures PartsOrder(p1, p2) == -PartsOrder(p2, p1)
    ensures PartsOrder(p1, p2) == 0 <==> p1 == p2
  {
    if |p1| > 0 && |p2| > 0 {
      LessIsStrictTotal(p1[0], p2[0], p1[0]);
      PartsOrderAntisymmetric(p1[1..], p2[1..]);
      if p1[0] == p2[0] && p1[1..] == p2[1..] {
        assert p1 == [p1[0]] + p1[1..] && p2 == [p2[0]] + p2[1..];
      }
    }
  }

  /** `versionCompare` gives 0 exactly on equal versions, and swapping the
    * operands flips the sign. */
  lemma VersionOrderZeroIff(v1: string, v2: string)
    ensures VersionOrder(v1, v2) == 0 <==> v1 == v2
    ensures VersionOrder(v1, v2) == -VersionOrder(v2, v1)
  {
    PartsOrderAntisymmetric(Split(v1, "."), Split(v2, "."));
    if Split(v1, ".") == Split(v2, ".") {
      assert v1 == Join(Split(v1, "."), ".");
      assert v2 == Join(Split(v2, "."), ".");
    }
  }

  /** A part list is smaller than any longer list it starts. */
  lemma {:induction false} ShorterPrefixIsSmaller(p: seq<string>, q: seq<string>)
    requires |q| > 0
    ensures PartsOrder(p, p + q) == -1
  {
    if |p| > 0 {
      LessIsStrictTotal(p[0], p[0], p[0]);
      assert (p + q)[1..] == p[1..] + q;
      ShorterPrefixIsSmaller(p[1..], q);
    }
  }

  /** Parts compare as text: "10" sorts before "2". */
  lemma TextualParts()
    ensures PartsOrder(["0", "10", "0"], ["0", "2", "0"]) == -1
  {
    var p1, p2 := ["0", "10", "0"], ["0", "2", "0"];
    LessIsStrictTotal("0", "0", "0");
    assert p1[1..] == ["10", "0"] && p2[1..] == ["2", "0"];
    assert Less("10", "2");
  }

  // ---------------------------------------------------------------------
  // detectQuickshell

  /** The minimum quickshell release. */
  const MinQuickshell: string := "0.2.0"

  /** The gate of `detectQuickshell`, as written: the release is at least
    * 0.2.0 in `versionCompare`'s order. */
  predicate MeetsMinimum(version: string)
  {
    VersionOrder(version, MinQuickshell) >= 0
  }

  /** The gate as evidently intended: the release parts compared as
    * numbers, as `CompareVersions` of the version package does. */
  predicate MeetsMinimumNumeric(version: string)
  {
    Version.CompareParts(Split(version, "."), Split(MinQuickshell, ".")) >= 0
  }

  /** "git" or "+" anywhere in the version output marks a git build. */
  function VariantOf(versionStr: string): (r: PackageVariant)
    ensures r == VariantGit <==> Contains(versionStr, "git") || Contains(versionStr, "+")
  {
    if Contains(versionStr, "git") || Contains(versionStr, "+") then VariantGit else VariantStable
  }

  /** Length of a match of `\d+\.` at the start of `t`, 0 when there is
    * none. The `\d+` takes the whole digit run, since only a '.' may
    * follow it. */
  function RunDotAt(t: string): (n: nat)
    ensures n <= |t|
  {
    var a := DigitRun(t);
    if a == 0 || a >= |t| || t[a] != '.' then 0 else a + 1
  }

  /** Length of a match of `\d+\.\d+\.\d+` at the start of `t`, 0 when
    * there is none. */
  function TripleAt(t: string): (n: nat)
    ensures n <= |t|
  {
    var a := RunDotAt(t);
    if a == 0 then 0
    else
      var b := RunDotAt(t[a..]);
      if b == 0 then 0
      else
        var c := DigitRun(t[a + b..]);
        if c == 0 then 0 else a + b + c
  }

  const QsPrefix: string := "quickshell "

  /** The capture of `quickshell (\d+\.\d+\.\d+)` at its leftmost match at
    * or after `from`. */
  function FindQuickshellVersion(s: string, from: nat): (r: Option<string>)
    decreases |s| - from
  {
    if from + |QsPrefix| > |s| then None
    else if s[from..from + |QsPrefix|] == QsPrefix && TripleAt(s[from + |QsPrefix|..]) > 0 then
      var t := s[from + |QsPrefix|..];
      Some(t[..TripleAt(t)])
    else FindQuickshellVersion(s, from + 1)
  }

  /** The digit run of digits followed by a non-digit is those digits. */
  lemma {:induction false} DigitRunOfPrefix(d: string, rest: string)
    requires AllDigits(d) && (rest == [] || !IsDigit(rest[0]))
    ensures DigitRun(d + rest) == |d|
  {
    if |d| > 0 {
      assert (d + rest)[1..] == d[1..] + rest;
      DigitRunOfPrefix(d[1..], rest);
    }
  }

  /** Digits then a dot match `\d+\.`, leaving what follows the dot. */
  lemma RunDotOf(d: string, r: string)
    requires d != [] && AllDigits(d)
    ensures RunDotAt(d + ("." + r)) == |d| + 1
    ensures (d + ("." + r))[|d| + 1..] == r
  {
    DigitRunOfPrefix(d, "." + r);
    assert (d + ("." + r))[|d|] == '.';
  }

  /** A match of `\d+\.\d+\.\d+` covers three digit runs and their dots. */
  lemma TripleAtOf(a: string, b: string, c: string, rest: string)
    requires a != [] && b != [] && c != [] && AllDigits(a) && AllDigits(b) && AllDigits(c)
    requires rest == [] || !IsDigit(rest[0])
    ensures var t := a + ("." + (b + ("." + (c + rest))));
            TripleAt(t) == |a| + |b| + 2 + |c|
  {
    var v := c + rest;
    var u := b + ("." + v);
    var t := a + ("." + u);
    TwoRunDots(a, b, v);
    DigitRunOfPrefix(c, rest);
    TripleAtSum(t, u, v, |a| + 1, |b| + 1, |c|);
  }

  /** Two digit runs, each followed by a dot, match `\d+\.` twice. */
  lemma TwoRunDots(a: string, b: string, v: string)
    requires a != [] && b != [] && AllDigits(a) && AllDigits(b)
    ensures var u := b + ("." + v);
            var t := a + ("." + u);
            RunDotAt(t) == |a| + 1 && t[|a| + 1..] == u && RunDotAt(u) == |b| + 1
            && |a| + 1 + (|b| + 1) <= |t| && t[|a| + 1 + (|b| + 1)..] == v
  {
    var u := b + ("." + v);
    var t := a + ("." + u);
    RunDotOf(a, u);
    RunDotOf(b, v);
    DropChain(t, u, v, |a| + 1, |b| + 1);
  }

  /** Dropping `x` and then `y` elements drops `x + y`. */
  lemma DropChain(t: string, u: string, v: string, x: nat, y: nat)
    requires x <= |t| && t[x..] == u && y <= |u| && u[y..] == v
    ensures x + y <= |t| && t[x + y..] == v
  {
    DropDrop(t, x, y);
  }

  /** A match of `\d+\.\d+\.\d+` is as long as its three pieces. */
  lemma TripleAtSum(t: string, u: string, v: string, x: nat, y: nat, z: nat)
    requires 0 < x == RunDotAt(t) && t[x..] == u
    requires 0 < y == RunDotAt(u) && x + y <= |t| && t[x + y..] == v
    requires 0 < z == DigitRun(v)
    ensures TripleAt(t) == x + y + z
  {
  }

  /** A release "a.b.c" printed after "quickshell " is read back whole. */
  lemma QuickshellVersionRead(a: string, b: string, c: string, rest: string)
    requires a != [] && b != [] && c != [] && AllDigits(a) && AllDigits(b) && AllDigits(c)
    requires rest == [] || !IsDigit(rest[0])
    ensures var t := a + ("." + (b + ("." + (c + rest))));
            FindQuickshellVersion(QsPrefix + t, 0) == Some(a + ("." + (b + ("." + c))))
  {
    var t := a + ("." + (b + ("." + (c + rest))));
    TripleAtOf(a, b, c, rest);
    TriplePrefix(a, b, c, rest);
    FoundAtStart(t, |a| + |b| + 2 + |c|, a + ("." + (b + ("." + c))));
  }

  /** Text that starts with release `w` right after "quickshell " yields
    * `w`. */
  lemma FoundAtStart(t: string, n: nat, w: string)
    requires 0 < n == TripleAt(t) && t[..n] == w
    ensures FindQuickshellVersion(QsPrefix + t, 0) == Some(w)
  {
    SplitAfter(QsPrefix, t);
  }

  /** A concatenation splits back at the end of its first operand. */
  lemma SplitAfter(p: string, t: string)
    ensures (p + t)[..|p|] == p && (p + t)[|p|..] == t
  {
  }

  /** The text of "a.b.c" followed by more text starts with "a.b.c". */
  lemma TriplePrefix(a: string, b: string, c: string, rest: string)
    ensures (a + ("." + (b + ("." + (c + rest)))))[..|a| + |b| + 2 + |c|] == a + ("." + (b + ("." + c)))
  {
    var w := a + ("." + (b + ("." + c)));
    assert a + ("." + (b + ("." + (c + rest)))) == w + rest;
  }

  /** `detectQuickshell`, with `commandExists("qs")` as `hasQs` and the
    * output of `qs --version` as `output` (`None` when it fails). */
  function DetectQuickshell(hasQs: bool, output: Option<string>): (r: Dependency)
    ensures r.Name == "quickshell" && r.Required && r.CanToggle
  {
    if !hasQs then
      Dependency("quickshell", StatusMissing, "", "QtQuick based desktop shell toolkit", true, VariantStable, true)
    else if output.None? then
      Dependency("quickshell", StatusNeedsReinstall, "", "QtQuick based desktop shell toolkit (version check failed)",
                 true, VariantStable, true)
    else
      var versionStr := output.value;
      match FindQuickshellVersion(versionStr, 0)
      case None =>
        Dependency("quickshell", StatusNeedsReinstall, "", "QtQuick based desktop shell toolkit (unknown version)",
                   true, VariantStable, true)
      case Some(version) =>
        if MeetsMinimum(version) then
          Dependency("quickshell", StatusInstalled, version, "QtQuick based desktop shell toolkit",
                     true, VariantOf(versionStr), true)
        else
          Dependency("quickshell", StatusNeedsUpdate, version, "QtQuick based desktop shell toolkit (needs 0.2.0+)",
                     true, VariantOf(versionStr), true)
  }

  /** What the detection reports: missing without `qs`; to reinstall when
    * the version cannot be read; otherwise the version read, installed iff
    * it passes the 0.2.0 gate and needing an update otherwise, with the
    * git variant iff the output mentions "git" or "+". */
  lemma QuickshellStatus(hasQs: bool, output: Option<string>)
    ensures var r := DetectQuickshell(hasQs, output);
            (r.Status == StatusMissing <==> !hasQs)
            && (r.Status == StatusNeedsReinstall <==>
                  hasQs && (output.None? || FindQuickshellVersion(output.value, 0).None?))
            && (hasQs && output.Some? && FindQuickshellVersion(output.value, 0).Some? ==>
                  var v := FindQuickshellVersion(output.value, 0).value;
                  r.Version == v
                  && (r.Status == StatusInstalled <==> MeetsMinimum(v))
                  && (r.Status == StatusNeedsUpdate <==> !MeetsMinimum(v))
                  && (r.Variant == VariantGit <==> Contains(output.value, "git") || Contains(output.value, "+")))
  {
  }

  /** The gate as written turns away release 0.10.0, which is later than
    * 0.2.0. */
  lemma LexicalGateRejects010()
    ensures !MeetsMinimum("0.10.0")
  {
    SplitOf010();
    SplitOfMinimum();
    TextualParts();
  }

  /** Release "0.10.0" has the parts "0", "10" and "0". */
  lemma SplitOf010()
    ensures Split("0.10.0", ".") == ["0", "10", "0"]
  {
    var p := ["0", "10", "0"];
    assert Join(p, ".") == "0.10.0";
    SplitJoinChar(p, '.');
  }

  /** The minimum release has the parts "0", "2" and "0". */
  lemma SplitOfMinimum()
    ensures Split(MinQuickshell, ".") == ["0", "2", "0"]
  {
    var p := ["0", "2", "0"];
    assert Join(p, ".") == MinQuickshell;
    SplitJoinChar(p, '.');
  }

  /** The digits of a number hold no '.'. */
  lemma DigitsLackDot(n: nat)
    ensures '.' !in NatToString(n)
  {
    var s := NatToString(n);
    forall k | 0 <= k < |s| ensures s[k] != '.' {
      assert IsDigit(s[k]);
    }
  }

  /** Three parts whose leading numbers are x, y and z. */
  lemma PaddedThree(p: seq<string>, x: int, y: int, z: int)
    requires |p| == 3 && ScanInt(p[0]) == Some(x) && ScanInt(p[1]) == Some(y) && ScanInt(p[2]) == Some(z)
    ensures Version.Padded(p, 3) == [x, y, z]
  {
    assert Version.Component(p, 0) == x;
    assert Version.Component(p, 1) == y;
    assert Version.Component(p, 2) == z;
  }

  /** Release x.y.z splits back into its three numbers' digits. */
  lemma TripleSplits(x: nat, y: nat, z: nat)
    ensures var p := [NatToString(x), NatToString(y), NatToString(z)];
            Split(Join(p, "."), ".") == p
  {
    var p := [NatToString(x), NatToString(y), NatToString(z)];
    forall k | 0 <= k < 3 ensures '.' !in p[k] {
      if k == 0 {
        DigitsLackDot(x);
      } else if k == 1 {
        DigitsLackDot(y);
      } else {
        DigitsLackDot(z);
      }
    }
    SplitJoinChar(p, '.');
  }

  /** The parts of release x.y.z, read as numbers. */
  lemma TripleComponents(x: nat, y: nat, z: nat)
    requires x <= INT64_MAX && y <= INT64_MAX && z <= INT64_MAX
    ensures var p := Split(Join([NatToString(x), NatToString(y), NatToString(z)], "."), ".");
            |p| == 3 && Version.Padded(p, 3) == [x, y, z]
  {
    TripleSplits(x, y, z);
    ScanIntOfNat(x);
    ScanIntOfNat(y);
    ScanIntOfNat(z);
    PaddedThree([NatToString(x), NatToString(y), NatToString(z)], x, y, z);
  }

  /** The parts of the minimum release, read as numbers. */
  lemma MinimumComponents()
    ensures var p := Split(MinQuickshell, ".");
            |p| == 3 && Version.Padded(p, 3) == [0, 2, 0]
  {
    var zero, two := NatToString(0), NatToString(2);
    assert zero == "0" && two == "2";
    var p2 := [zero, two, zero];
    assert p2[1..] == [two, zero] && p2[1..][1..] == [zero];
    assert Join([zero], ".") == zero;
    assert Join([two, zero], ".") == two + ("." + zero);
    assert Join(p2, ".") == zero + ("." + (two + ("." + zero)));
    assert Join(p2, ".") == MinQuickshell;
    SplitJoinChar(p2, '.');
    ScanIntOfNat(0);
    ScanIntOfNat(2);
    PaddedThree(p2, 0, 2, 0);
  }

  /** Triples of numbers against (0, 2, 0). */
  lemma TripleAtLeastMinimum(x: nat, y: nat, z: nat)
    ensures Version.LexCompare([x, y, z], [0, 2, 0]) >= 0 <==> x > 0 || (x == 0 && y >= 2)
  {
    var a, b := [x, y, z], [0, 2, 0];
    if x != 0 {
      Version.LexFirstDifference(a, b, 0);
    } else if y != 2 {
      assert a[..1] == b[..1];
      Version.LexFirstDifference(a, b, 1);
    } else if z != 0 {
      assert a[..2] == b[..2];
      Version.LexFirstDifference(a, b, 2);
    } else {
      Version.LexAntisymmetric(a, b);
    }
  }

  /** The numeric gate admits release x.y.z exactly when it is at least
    * 0.2.0 as a triple of numbers. */
  lemma NumericGate(x: nat, y: nat, z: nat)
    requires x <= INT64_MAX && y <= INT64_MAX && z <= INT64_MAX
    ensures MeetsMinimumNumeric(Join([NatToString(x), NatToString(y), NatToString(z)], "."))
            <==> x > 0 || (x == 0 && y >= 2)
  {
    TripleComponents(x, y, z);
    MinimumComponents();
    TripleAtLeastMinimum(x, y, z);
  }

  /** The corrected gate admits 0.10.0. */
  lemma NumericGateAdmits010()
    ensures MeetsMinimumNumeric("0.10.0")
  {
    var zero, ten := NatToString(0), NatToString(10);
    assert zero == "0" && ten == "10";
    var p := [zero, ten, zero];
    assert p[1..] == [ten, zero] && p[1..][1..] == [zero];
    assert Join([zero], ".") == zero;
    assert Join([ten, zero], ".") == ten + ("." + zero);
    assert Join(p, ".") == zero + ("." + (ten + ("." + zero)));
    assert Join(p, ".") == "0.10.0";
    SplitJoinChar(p, '.');
    ScanIntOfNat(0);
    ScanIntOfNat(10);
    PaddedThree(p, 0, 10, 0);
    MinimumComponents();
    TripleAtLeastMinimum(0, 10, 0);
  }
}
