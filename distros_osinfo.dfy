/** Operating-system detection of the installer: reading `/etc/os-release`
  * into an `OSInfo`, and the gate that rejects distribution versions the
  * shell does not support. The registry of distributions is passed in as
  * the table `DistrosInterface.Registry` holds. */
module DistrosOSInfo {
  import opened Common
  import opened Strs
  import opened DistrosInterface

  datatype DistroInfo = DistroInfo(ID: string, HexColorCode: string)

  datatype OSInfo = OSInfo(
    Distribution: DistroInfo, Version: string, VersionID: string,
    PrettyName: string, Architecture: string)

  // ---------------------------------------------------------------------
  // os-release lines

  /** One line of os-release split at its first '=' into a key and a value
    * with the surrounding double quotes trimmed; `None` for a line that has
    * no '='. */
  function ReadLine(line: string): (r: Option<(string, string)>)
    ensures r.None? <==> '=' !in line
    ensures r.Some? ==> '=' !in r.value.0 && HasPrefix(line, r.value.0 + "=")
                        && r.value.1 == TrimChar(line[|r.value.0| + 1..], '"')
  {
    SplitNTwo(line, "=");
    ContainsChar(line, '=');
    var parts := SplitN(line, "=", 2);
    if |parts| != 2 then None
    else
      var i := Index(line, "=");
      NoEarlierOccurrence(line, "=", i);
      LacksChar(line[..i], '=');
      assert line[..i + 1] == line[..i] + "=";
      Some((parts[0], TrimChar(parts[1], '"')))
  }

  /** The fields of `OSInfo` that os-release lines set. */
  datatype Field = FieldID | FieldVersionID | FieldVersion | FieldPrettyName

  /** What one line sets: the field its key selects and the value, or
    * `None` for a line without '=' or with a key the reader ignores.
    * `VERSION_ID` and `BUILD_ID` both select the version ID. */
  function Entry(line: string): (r: Option<(Field, string)>)
    ensures r.Some? ==> ReadLine(line).Some? && r.value.1 == ReadLine(line).value.1
    ensures r.Some? && r.value.0 == FieldID <==> ReadLine(line).Some? && ReadLine(line).value.0 == "ID"
    ensures r.Some? && r.value.0 == FieldVersionID <==>
              ReadLine(line).Some? && ReadLine(line).value.0 in {"VERSION_ID", "BUILD_ID"}
  {
    match ReadLine(line)
    case None => None
    case Some((key, value)) =>
      if key == "ID" then Some((FieldID, value))
      else if key == "VERSION_ID" || key == "BUILD_ID" then Some((FieldVersionID, value))
      else if key == "VERSION" then Some((FieldVersion, value))
      else if key == "PRETTY_NAME" then Some((FieldPrettyName, value))
      else None
  }

  /** The information before any line is read. */
  function Initial(goarch: string): (info: OSInfo)
  {
    OSInfo(DistroInfo("", ""), "", "", "", goarch)
  }

  /** The effect of one line: `ID` must name a registered distribution and
    * takes its colour; the other keys set their field; every other line is
    * ignored. */
  function ApplyLine(table: map<string, DistroConfig>, info: OSInfo, line: string): (r: Result<OSInfo>)
  {
    match Entry(line)
    case None => Ok(info)
    case Some((f, value)) =>
      match f
      case FieldID =>
        if value !in table then Err("Unsupported distribution: " + value)
        else Ok(info.(Distribution := DistroInfo(value, table[value].ColorHex)))
      case FieldVersionID => Ok(info.(VersionID := value))
      case FieldVersion => Ok(info.(Version := value))
      case FieldPrettyName => Ok(info.(PrettyName := value))
  }

  /** The lines applied in order; the first error stops the reading. */
  function ReadLines(table: map<string, DistroConfig>, info: OSInfo, lines: seq<string>): (r: Result<OSInfo>)
    decreases |lines|
  {
    if lines == [] then Ok(info)
    else match ApplyLine(table, info, lines[0])
      case Err(e) => Err(e)
      case Ok(next) => ReadLines(table, next, lines[1..])
  }

  /** `GetOSInfo` on the running system's OS and architecture names and the
    * lines of os-release. */
  function OSInfoOf(goos: string, goarch: string, table: map<string, DistroConfig>, lines: seq<string>): (r: Result<OSInfo>)
  {
    if goos != "linux" then Err("Only linux is supported, but I found " + goos)
    else if goarch != "amd64" && goarch != "arm64" then
      Err("Only amd64 and arm64 are supported, but I found " + goarch)
    else ReadLines(table, Initial(goarch), lines)
  }

  /** The scan over the lines of os-release, returning at the first
    * unregistered ID. */
  method ReadOSRelease(table: map<string, DistroConfig>, start: OSInfo, lines: seq<string>)
    returns (r: Result<OSInfo>)
    ensures r == ReadLines(table, start, lines)
  {
    var info := start;
    var i := 0;
    while i < |lines|
      invariant 0 <= i <= |lines|
      invariant ReadLines(table, info, lines[i..]) == ReadLines(table, start, lines)
    {
      assert lines[i..][1..] == lines[i + 1..];
      var next := ApplyLine(table, info, lines[i]);
      if next.Err? {
        return next;
      }
      info := next.value;
      i := i + 1;
    }
    return Ok(info);
  }

  /** `GetOSInfo`: the platform checks, then the scan. */
  method GetOSInfo(goos: string, goarch: string, table: map<string, DistroConfig>, lines: seq<string>)
    returns (r: Result<OSInfo>)
    ensures r == OSInfoOf(goos, goarch, table, lines)
  {
    if goos != "linux" {
      return Err("Only linux is supported, but I found " + goos);
    }
    if goarch != "amd64" && goarch != "arm64" {
      return Err("Only amd64 and arm64 are supported, but I found " + goarch);
    }
    r := ReadOSRelease(table, Initial(goarch), lines);
  }

  // ---------------------------------------------------------------------
  // What reading os-release yields

  /** The value of the last line that sets field `f`, or `dflt` when no line
    * sets it. */
  function LastValue(lines: seq<string>, f: Field, dflt: string): (v: string)
    decreases |lines|
  {
    if lines == [] then dflt
    else
      var e := Entry(lines[|lines| - 1]);
      if e.Some? && e.value.0 == f then e.value.1
      else LastValue(lines[..|lines| - 1], f, dflt)
  }

  /** A line that names an ID the registry does not hold. */
  predicate NamesUnregistered(table: map<string, DistroConfig>, line: string)
  {
    var e := Entry(line);
    e.Some? && e.value.0 == FieldID && e.value.1 !in table
  }

  /** Applying one line fails exactly when it names an unregistered ID. */
  lemma ApplyFailsIffUnregistered(table: map<string, DistroConfig>, info: OSInfo, line: string)
    ensures ApplyLine(table, info, line).Err? <==> NamesUnregistered(table, line)
    ensures ApplyLine(table, info, line).Err? ==>
              ApplyLine(table, info, line).msg == "Unsupported distribution: " + Entry(line).value.1
  {
  }

  /** Line `k` is the first that names an unregistered ID. */
  predicate FirstUnregistered(table: map<string, DistroConfig>, lines: seq<string>, k: int)
  {
    0 <= k < |lines| && NamesUnregistered(table, lines[k])
    && forall j :: 0 <= j < k ==> !NamesUnregistered(table, lines[j])
  }

  /** Reading fails exactly when some line names an unregistered ID, and the
    * message names the first such ID. */
  lemma {:induction false} ReadFailsIffUnregistered(table: map<string, DistroConfig>, info: OSInfo, lines: seq<string>)
    ensures ReadLines(table, info, lines).Err? <==> exists k :: 0 <= k < |lines| && NamesUnregistered(table, lines[k])
    ensures ReadLines(table, info, lines).Err? ==>
              exists k :: FirstUnregistered(table, lines, k)
                && ReadLines(table, info, lines).msg == "Unsupported distribution: " + Entry(lines[k]).value.1
    decreases |lines|
  {
    if lines != [] {
      var r := ApplyLine(table, info, lines[0]);
      ApplyFailsIffUnregistered(table, info, lines[0]);
      if r.Ok? {
        var rest := lines[1..];
        ReadFailsIffUnregistered(table, r.value, rest);
        assert ReadLines(table, info, lines) == ReadLines(table, r.value, rest);
        UnregisteredInRest(table, lines);
        if ReadLines(table, info, lines).Err? {
          var k :| FirstUnregistered(table, rest, k)
                   && ReadLines(table, r.value, rest).msg == "Unsupported distribution: " + Entry(rest[k]).value.1;
          FirstUnregisteredInRest(table, lines, k);
        }
      } else {
        assert FirstUnregistered(table, lines, 0);
      }
    }
  }

  /** Past a first line that names a registered ID or no ID, some line
    * names an unregistered ID exactly when some later line does. */
  lemma UnregisteredInRest(table: map<string, DistroConfig>, lines: seq<string>)
    requires |lines| > 0 && !NamesUnregistered(table, lines[0])
    ensures (exists k :: 0 <= k < |lines| && NamesUnregistered(table, lines[k]))
            <==> (exists k :: 0 <= k < |lines[1..]| && NamesUnregistered(table, lines[1..][k]))
  {
    FoundInRest(lines, l => NamesUnregistered(table, l));
  }

  /** When the first element fails `p`, an element satisfying it is one of
    * the rest. */
  lemma FoundInRest<T>(s: seq<T>, p: T -> bool)
    requires |s| > 0 && !p(s[0])
    ensures (exists k :: 0 <= k < |s| && p(s[k])) <==> (exists k :: 0 <= k < |s[1..]| && p(s[1..][k]))
  {
    if exists k :: 0 <= k < |s| && p(s[k]) {
      var k :| 0 <= k < |s| && p(s[k]);
      assert s[1..][k - 1] == s[k];
    }
    if exists k :: 0 <= k < |s[1..]| && p(s[1..][k]) {
      var k :| 0 <= k < |s[1..]| && p(s[1..][k]);
      assert s[1..][k] == s[k + 1];
    }
  }

  /** The first unregistered ID after such a first line is the first of
    * all the lines. */
  lemma FirstUnregisteredInRest(table: map<string, DistroConfig>, lines: seq<string>, k: int)
    requires |lines| > 0 && !NamesUnregistered(table, lines[0])
    requires FirstUnregistered(table, lines[1..], k)
    ensures FirstUnregistered(table, lines, k + 1) && lines[k + 1] == lines[1..][k]
  {
    forall j | 1 <= j < k + 1 ensures !NamesUnregistered(table, lines[j]) {
      assert lines[j] == lines[1..][j - 1];
    }
  }

  /** Reading one more line continues from the result of the lines before. */
  lemma {:induction false} ReadLinesSnoc(table: map<string, DistroConfig>, info: OSInfo, lines: seq<string>, line: string)
    ensures ReadLines(table, info, lines + [line]) ==
              match ReadLines(table, info, lines)
              case Err(e) => Err(e)
              case Ok(mid) => ApplyLine(table, mid, line)
    decreases |lines|
  {
    if lines == [] {
      assert [line][1..] == [];
    } else {
      assert (lines + [line])[1..] == lines[1..] + [line];
      var r := ApplyLine(table, info, lines[0]);
      if r.Ok? {
        ReadLinesSnoc(table, r.value, lines[1..], line);
      }
    }
  }

  /** The fields of a successful reading: the architecture is the one
    * given, and the version ID, version and pretty name are the values of
    * the last line that sets them, each left as it was when no line sets
    * it. */
  lemma {:induction false} ReadFields(table: map<string, DistroConfig>, info: OSInfo, lines: seq<string>)
    requires ReadLines(table, info, lines).Ok?
    ensures var out := ReadLines(table, info, lines).value;
            out.Architecture == info.Architecture
            && out.VersionID == LastValue(lines, FieldVersionID, info.VersionID)
            && out.Version == LastValue(lines, FieldVersion, info.Version)
            && out.PrettyName == LastValue(lines, FieldPrettyName, info.PrettyName)
    decreases |lines|
  {
    if lines != [] {
      var n := |lines| - 1;
      var init := lines[..n];
      assert init + [lines[n]] == lines;
      ReadLinesSnoc(table, info, init, lines[n]);
      var mid := ReadLines(table, info, init);
      ReadFields(table, info, init);
      ApplyFields(table, mid.value, lines[n]);
    }
  }

  /** One line sets at most the field it names, to its value. */
  lemma ApplyFields(table: map<string, DistroConfig>, mid: OSInfo, line: string)
    requires ApplyLine(table, mid, line).Ok?
    ensures var out, e := ApplyLine(table, mid, line).value, Entry(line);
            out.Architecture == mid.Architecture
            && out.VersionID == (if e.Some? && e.value.0 == FieldVersionID then e.value.1 else mid.VersionID)
            && out.Version == (if e.Some? && e.value.0 == FieldVersion then e.value.1 else mid.Version)
            && out.PrettyName == (if e.Some? && e.value.0 == FieldPrettyName then e.value.1 else mid.PrettyName)
  {
  }

  /** The distribution of a successful reading is that of the last `ID`
    * line, which is registered, with the registry's colour; it is left as
    * it was when no line names an ID. */
  lemma {:induction false} ReadDistribution(table: map<string, DistroConfig>, info: OSInfo, lines: seq<string>)
    requires ReadLines(table, info, lines).Ok?
    ensures var out := ReadLines(table, info, lines).value;
            var id := LastValue(lines, FieldID, info.Distribution.ID);
            out.Distribution.ID == id
            && (out.Distribution == info.Distribution
                || (id in table && out.Distribution.HexColorCode == table[id].ColorHex))
    decreases |lines|
  {
    if lines != [] {
      var n := |lines| - 1;
      var init := lines[..n];
      assert init + [lines[n]] == lines;
      ReadLinesSnoc(table, info, init, lines[n]);
      var mid := ReadLines(table, info, init);
      ReadDistribution(table, info, init);
      ApplyDistribution(table, mid.value, lines[n]);
    }
  }

  /** Only an `ID` line changes the distribution, to the registered one it
    * names. */
  lemma ApplyDistribution(table: map<string, DistroConfig>, mid: OSInfo, line: string)
    requires ApplyLine(table, mid, line).Ok?
    ensures var out, e := ApplyLine(table, mid, line).value, Entry(line);
            if e.Some? && e.value.0 == FieldID
            then e.value.1 in table && out.Distribution == DistroInfo(e.value.1, table[e.value.1].ColorHex)
            else out.Distribution == mid.Distribution
  {
  }

  // ---------------------------------------------------------------------
  // IsUnsupportedDistro

  /** `IsUnsupportedDistro`: an unregistered distribution is unsupported;
    * Ubuntu needs a `major.minor` version of at least 25.04; Debian needs
    * either no version ID (testing and sid) or a numeric one of at least
    * 12; every other registered distribution is supported. */
  function IsUnsupportedDistro(table: map<string, DistroConfig>, distroID: string, versionID: string): (r: bool)
    ensures distroID !in table ==> r
    ensures distroID in table && distroID != "ubuntu" && distroID != "debian" ==> !r
    ensures distroID == "ubuntu" && '.' !in versionID ==> r
    ensures distroID == "debian" && versionID != "" && Atoi(versionID).None? ==> r
    ensures distroID in table && distroID == "debian" && versionID == "" ==> !r
  {
    if distroID !in table then true
    else if distroID == "ubuntu" then
      var parts := Split(versionID, ".");
      if '.' !in versionID then
        assert |parts| < 2 by {
          ContainsChar(versionID, '.');
        }
        true
      else if |parts| >= 2 && Atoi(parts[0]).Some? && Atoi(parts[1]).Some? then
        var major, minor := Atoi(parts[0]).value, Atoi(parts[1]).value;
        major < 25 || (major == 25 && minor < 4)
      else true
    else if distroID == "debian" then
      if versionID == "" then false
      else
        var n := Atoi(versionID);
        if n.Some? then n.value < 12 else true
    else false
  }

  /** A non-empty run of decimal digits reads as its value. */
  lemma AtoiOfDigits(s: string)
    requires |s| > 0 && AllDigits(s) && DigitsValue(s) <= INT64_MAX
    ensures Atoi(s) == Some(DigitsValue(s))
  {
  }

  /** Ubuntu `a.b` with decimal `a` and `b` is supported exactly from 25.4
    * on, whatever their leading zeros. */
  lemma UbuntuGate(table: map<string, DistroConfig>, a: string, b: string)
    requires "ubuntu" in table
    requires |a| > 0 && AllDigits(a) && DigitsValue(a) <= INT64_MAX
    requires |b| > 0 && AllDigits(b) && DigitsValue(b) <= INT64_MAX
    ensures !IsUnsupportedDistro(table, "ubuntu", a + "." + b)
            <==> DigitsValue(a) > 25 || (DigitsValue(a) == 25 && DigitsValue(b) >= 4)
  {
    var v := a + "." + b;
    assert '.' !in a && '.' !in b;
    assert Join([a, b], ".") == v;
    SplitJoinChar([a, b], '.');
    assert v[|a|] == '.';
    AtoiOfDigits(a);
    AtoiOfDigits(b);
  }

  /** Debian with a decimal version is supported exactly from 12 on. */
  lemma DebianGate(table: map<string, DistroConfig>, v: string)
    requires "debian" in table
    requires |v| > 0 && AllDigits(v) && DigitsValue(v) <= INT64_MAX
    ensures !IsUnsupportedDistro(table, "debian", v) <==> DigitsValue(v) >= 12
  {
    AtoiOfDigits(v);
  }

  /** Ubuntu 25.04 passes the gate. */
  lemma Ubuntu2504(table: map<string, DistroConfig>, a: string, b: string)
    requires "ubuntu" in table && a == "25" && b == "04"
    ensures !IsUnsupportedDistro(table, "ubuntu", a + "." + b)
  {
    assert DigitsValue(a[..1]) == 2 by { assert a[..1][..0] == []; }
    assert DigitsValue(b[..1]) == 0 by { assert b[..1][..0] == []; }
    assert DigitsValue(a) == 25;
    UbuntuGate(table, a, b);
  }

  /** Ubuntu 24.10 does not. */
  lemma Ubuntu2410(table: map<string, DistroConfig>, a: string, b: string)
    requires "ubuntu" in table && a == "24" && b == "10"
    ensures IsUnsupportedDistro(table, "ubuntu", a + "." + b)
  {
    assert DigitsValue(a[..1]) == 2 by { assert a[..1][..0] == []; }
    assert DigitsValue(b[..1]) == 1 by { assert b[..1][..0] == []; }
    assert DigitsValue(a) == 24;
    UbuntuGate(table, a, b);
  }
}
