/** The version logic of the DMS installer: how two release versions are
  * ordered, and how the installed version and the latest one decide the
  * git/branch/tag flags and whether an update is offered. The two versions
  * themselves come from git, the `dms` binary or the release page; here
  * they are parameters. */
module Version {
  import opened Common
  import opened Strs

  // ---------------------------------------------------------------------
  // Comparing versions

  /** The dot-separated parts of a version, after one leading 'v'. */
  function Parts(v: string): (r: seq<string>)
    ensures |r| >= 1
  {
    Split(TrimPrefix(v, "v"), ".")
  }

  /** The number `fmt.Sscanf(part, "%d", &p)` leaves in `p`: the leading
    * integer of the part, and 0 when there is none or when the part is
    * missing. */
  function Component(parts: seq<string>, i: int): (r: int)
    ensures IsInt64(r)
  {
    if 0 <= i < |parts| then
      match ScanInt(parts[i])
      case Some(v) => v
      case None => 0
    else 0
  }

  /** The first `n` components, missing ones as 0. */
  function Padded(parts: seq<string>, n: nat): (r: seq<int>)
    ensures |r| == n && forall i :: 0 <= i < n ==> r[i] == Component(parts, i)
  {
    seq(n, i requires 0 <= i < n => Component(parts, i))
  }

  /** Lexicographic order on number sequences of one length: -1, 0 or 1. */
  function LexCompare(a: seq<int>, b: seq<int>): (r: int)
    requires |a| == |b|
    ensures -1 <= r <= 1
  {
    if |a| == 0 then 0
    else if a[0] < b[0] then -1
    else if a[0] > b[0] then 1
    else LexCompare(a[1..], b[1..])
  }

  /** The order of two part lists: their components compared as numbers,
    * the shorter list padded with zeros. */
  function CompareParts(p1: seq<string>, p2: seq<string>): (r: int)
  {
    var n := if |p1| < |p2| then |p2| else |p1|;
    LexCompare(Padded(p1, n), Padded(p2, n))
  }

  /** The order `CompareVersions` computes. */
  function Compare(v1: string, v2: string): (r: int)
    ensures -1 <= r <= 1
  {
    CompareParts(Parts(v1), Parts(v2))
  }

  /** `CompareVersions`: compares the parts in turn and returns at the first
    * one that differs. */
  method CompareVersions(v1: string, v2: string) returns (r: int)
    ensures r == Compare(v1, v2)
    ensures -1 <= r <= 1
  {
    var s1 := TrimPrefix(v1, "v");
    var s2 := TrimPrefix(v2, "v");
    var parts1 := Split(s1, ".");
    var parts2 := Split(s2, ".");
    var maxLen := |parts1|;
    if |parts2| > maxLen {
      maxLen := |parts2|;
    }
    ghost var a, b := Padded(parts1, maxLen), Padded(parts2, maxLen);
    var i := 0;
    while i < maxLen
      invariant 0 <= i <= maxLen
      invariant LexCompare(a[i..], b[i..]) == Compare(v1, v2)
    {
      var p1, p2 := 0, 0;
      if i < |parts1| {
        var scanned := ScanInt(parts1[i]);
        if scanned.Some? {
          p1 := scanned.value;
        }
      }
      if i < |parts2| {
        var scanned := ScanInt(parts2[i]);
        if scanned.Some? {
          p2 := scanned.value;
        }
      }
      assert p1 == a[i] && p2 == b[i];
      assert a[i..][0] == a[i] && b[i..][0] == b[i];
      assert a[i..][1..] == a[i + 1..] && b[i..][1..] == b[i + 1..];
      if p1 < p2 {
        return -1;
      }
      if p1 > p2 {
        return 1;
      }
      i := i + 1;
    }
    return 0;
  }

  /** The lexicographic order is antisymmetric, and 0 exactly on equal
    * sequences. */
  lemma {:induction false} LexAntisymmetric(a: seq<int>, b: seq<int>)
    requires |a| == |b|
    ensures LexCompare(a, b) == -LexCompare(b, a)
    ensures LexCompare(a, b) == 0 <==> a == b
  {
    if |a| > 0 {
      LexAntisymmetric(a[1..], b[1..]);
      if a[0] == b[0] && a[1..] == b[1..] {
        assert a == [a[0]] + a[1..] && b == [b[0]] + b[1..];
      }
    }
  }

  /** Every version is equal to itself. */
  lemma CompareReflexive(v: string)
    ensures Compare(v, v) == 0
  {
    var n := |Parts(v)|;
    LexAntisymmetric(Padded(Parts(v), n), Padded(Parts(v), n));
  }

  /** Swapping the operands flips the sign. */
  lemma CompareAntisymmetric(v1: string, v2: string)
    ensures Compare(v1, v2) == -Compare(v2, v1)
  {
    var p1, p2 := Parts(v1), Parts(v2);
    var n := if |p1| < |p2| then |p2| else |p1|;
    assert n == if |p2| < |p1| then |p1| else |p2|;
    LexAntisymmetric(Padded(p1, n), Padded(p2, n));
  }

  /** Two versions are equal exactly when every component agrees, missing
    * components counting as 0. */
  lemma CompareZeroIff(v1: string, v2: string)
    ensures var n := if |Parts(v1)| < |Parts(v2)| then |Parts(v2)| else |Parts(v1)|;
            Compare(v1, v2) == 0 <==> forall i :: 0 <= i < n ==> Component(Parts(v1), i) == Component(Parts(v2), i)
  {
    var n := if |Parts(v1)| < |Parts(v2)| then |Parts(v2)| else |Parts(v1)|;
    LexAntisymmetric(Padded(Parts(v1), n), Padded(Parts(v2), n));
  }

  /** The first differing component decides, numerically. */
  lemma {:induction false} LexFirstDifference(a: seq<int>, b: seq<int>, k: nat)
    requires |a| == |b| && k < |a| && a[..k] == b[..k] && a[k] != b[k]
    ensures LexCompare(a, b) == (if a[k] < b[k] then -1 else 1)
  {
    if k > 0 {
      assert a[1..][..k - 1] == a[1..k] && b[1..][..k - 1] == b[1..k];
      assert a[0] == a[..k][0] && b[0] == b[..k][0];
      LexFirstDifference(a[1..], b[1..], k - 1);
    }
  }

  /** A part list and the same list with a trailing zero part are equal. */
  lemma TrailingZeroPart(p: seq<string>)
    ensures CompareParts(p + ["0"], p) == 0
  {
    var q := p + ["0"];
    var n := |q|;
    ScanIntOfNat(0);
    assert NatToString(0) == "0";
    assert Padded(q, n) == Padded(p, n) by {
      forall i | 0 <= i < n ensures Component(q, i) == Component(p, i) {
        if i < |p| {
          assert q[i] == p[i];
        }
      }
    }
    LexAntisymmetric(Padded(q, n), Padded(p, n));
  }

  /** Appending ".0" to a version leaves it equal: "v1.0" equals "v1". */
  lemma TrailingZero(v: string)
    ensures Compare(v + ".0", v) == 0
  {
    var s := TrimPrefix(v, "v");
    assert TrimPrefix(v + ".0", "v") == s + ".0" by {
      var w := v + ".0";
      if |v| > 0 {
        assert w[..1] == v[..1];
        assert HasPrefix(w, "v") == HasPrefix(v, "v");
        if HasPrefix(v, "v") {
          assert w[1..] == v[1..] + ".0";
        }
      } else {
        assert w == ".0" && w[..1] == ".";
        assert !HasPrefix(w, "v");
      }
    }
    var parts := Split(s, ".");
    forall k | 0 <= k < |parts + ["0"]| ensures '.' !in (parts + ["0"])[k] {
      if k < |parts| {
        LacksChar(parts[k], '.');
      }
    }
    JoinAppend(parts, "0", ".");
    assert Join(parts + ["0"], ".") == s + ".0";
    SplitJoinChar(parts + ["0"], '.');
    TrailingZeroPart(parts);
  }

  /** Components compare as numbers, not text: "v0.1.10" is later than
    * "v0.1.2". */
  lemma NumericOrder()
    ensures CompareParts(["0", "1", "10"], ["0", "1", "2"]) == 1
  {
    var p1, p2 := ["0", "1", "10"], ["0", "1", "2"];
    ScanIntOfNat(0);
    ScanIntOfNat(1);
    ScanIntOfNat(2);
    ScanIntOfNat(10);
    assert NatToString(0) == "0" && NatToString(1) == "1" && NatToString(2) == "2";
    assert NatToString(10) == "10";
    var a, b := Padded(p1, 3), Padded(p2, 3);
    assert a == [0, 1, 10] && b == [0, 1, 2];
    LexFirstDifference(a, b, 2);
  }

  /** One leading 'v' is ignored: "v1.2" and "1.2" are equal. */
  lemma LeadingVIgnored(v: string)
    requires !HasPrefix(v, "v")
    ensures Compare("v" + v, v) == 0
  {
    assert ("v" + v)[..1] == "v" && ("v" + v)[1..] == v;
    assert Parts("v" + v) == Parts(v);
    CompareReflexive(v);
  }

  // ---------------------------------------------------------------------
  // Version information

  datatype VersionInfo = VersionInfo(
    current: string,
    latest: string,
    isGit: bool,
    isBranch: bool,
    isTag: bool,
    hasUpdate: bool)

  /** The flags and the update decision of `GetDMSVersionInfo` for the
    * installed and the latest version: a version with '@' is a branch
    * checkout "branch@commit", whose update is a different latest commit;
    * a 'v' version without '@' is a tag, updated when the latest differs;
    * anything else is never updated. */
  function NewVersionInfo(current: string, latest: string): (r: VersionInfo)
    ensures r.current == current && r.latest == latest
  {
    var isBranch := Contains(current, "@");
    var isTag := !Contains(current, "@") && HasPrefix(current, "v");
    var hasUpdate :=
      if isBranch then
        var parts := Split(current, "@");
        var latestParts := Split(latest, "@");
        |parts| == 2 && |latestParts| == 2 && parts[1] != latestParts[1]
      else if isTag then current != latest
      else false;
    VersionInfo(current, latest, isBranch, isBranch, isTag, hasUpdate)
  }

  /** `GetDMSVersionInfo`: an error finding the installed version is
    * returned as is, one finding the latest version with context. */
  function GetDMSVersionInfo(current: Result<string>, latest: Result<string>): (r: Result<VersionInfo>)
    ensures current.Err? ==> r == Err(current.msg)
    ensures current.Ok? && latest.Err? ==> r == Err("failed to get latest version: " + latest.msg)
    ensures current.Ok? && latest.Ok? ==> r.Ok? && r.value.current == current.value && r.value.latest == latest.value
  {
    match current
    case Err(m) => Err(m)
    case Ok(c) =>
      match latest
      case Err(m) => Err("failed to get latest version: " + m)
      case Ok(l) => Ok(NewVersionInfo(c, l))
  }

  /** The flags: git and branch both mean the version holds '@'; a tag has
    * no '@' and starts with 'v'; no version is both a branch and a tag. */
  lemma Flags(current: string, latest: string)
    ensures var r := NewVersionInfo(current, latest);
            (r.isGit <==> '@' in current) && r.isBranch == r.isGit
            && (r.isTag <==> '@' !in current && HasPrefix(current, "v"))
            && !(r.isBranch && r.isTag)
  {
    ContainsChar(current, '@');
  }

  /** "branch@commit" against "branch'@commit'": an update exactly when
    * the commits differ, whatever the branch names. */
  lemma BranchUpdate(branch: string, commit: string, latestBranch: string, latestCommit: string)
    requires '@' !in branch && '@' !in commit && '@' !in latestBranch && '@' !in latestCommit
    ensures NewVersionInfo(branch + "@" + commit, latestBranch + "@" + latestCommit).hasUpdate
            <==> commit != latestCommit
  {
    var current, latest := branch + "@" + commit, latestBranch + "@" + latestCommit;
    assert Join([branch, commit], "@") == current;
    assert Join([latestBranch, latestCommit], "@") == latest;
    SplitJoinChar([branch, commit], '@');
    SplitJoinChar([latestBranch, latestCommit], '@');
    assert current[|branch|] == '@';
    ContainsChar(current, '@');
  }

  /** A branch checkout never offers an update when the latest version is
    * not of the form "branch@commit". */
  lemma BranchWithoutLatestCommit(current: string, latest: string)
    requires '@' in current && '@' !in latest
    ensures !NewVersionInfo(current, latest).hasUpdate
  {
    ContainsChar(current, '@');
    ContainsChar(latest, '@');
    assert Split(latest, "@") == [latest] by {
      assert Index(latest, "@") == -1;
    }
  }

  /** A tag is updated exactly when the latest version differs, as text. */
  lemma TagUpdate(current: string, latest: string)
    requires '@' !in current && HasPrefix(current, "v")
    ensures NewVersionInfo(current, latest).hasUpdate <==> current != latest
  {
    ContainsChar(current, '@');
  }

  /** A version that is neither a branch nor a tag (such as "unknown") is
    * never updated. */
  lemma OtherNeverUpdated(current: string, latest: string)
    requires '@' !in current && !HasPrefix(current, "v")
    ensures var r := NewVersionInfo(current, latest);
            !r.isGit && !r.isTag && !r.hasUpdate
  {
    ContainsChar(current, '@');
  }
}
