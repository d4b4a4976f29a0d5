/** The tag reader of the source installer: which tag of a `git ls-remote
  * --tags` listing (newest first) it builds. */
module ManualPackages {
  import opened Strs

  const TagRef: string := "refs/tags/"
  const Peeled: string := "^{}"

  /** A line naming a tag itself, not the commit an annotated tag points to
    * (git marks those with "^{}"). */
  predicate Names(line: string)
  {
    Contains(line, TagRef) && !Contains(line, Peeled)
  }

  /** The tag on a line: the text after the first "refs/tags/" (up to a
    * second one), trimmed. */
  function TagOf(line: string): (r: string)
  {
    var parts := Split(line, TagRef);
    if |parts| > 1 then TrimSpace(parts[1]) else ""
  }

  /** The tag `parseLatestTagFromGitOutput` picks from the lines of a
    * listing: the one on the first line naming a tag, and "" when no line
    * does. */
  function LatestTag(lines: seq<string>): (r: string)
    ensures r != "" ==> exists k :: 0 <= k < |lines| && Names(lines[k]) && r == TagOf(lines[k])
    ensures (forall k :: 0 <= k < |lines| ==> !Names(lines[k])) ==> r == ""
  {
    if |lines| == 0 then ""
    else if Names(lines[0]) && |Split(lines[0], TagRef)| > 1 then TagOf(lines[0])
    else
      var r := LatestTag(lines[1..]);
      assert forall k :: 1 <= k < |lines| ==> lines[1..][k - 1] == lines[k];
      r
  }

  /** `parseLatestTagFromGitOutput`: splits the output into lines and
    * returns the tag of the first line that names one. */
  method ParseLatestTagFromGitOutput(output: string) returns (tag: string)
    ensures tag == LatestTag(Split(output, "\n"))
  {
    var lines := Split(output, "\n");
    var i := 0;
    while i < |lines|
      invariant 0 <= i <= |lines|
      invariant LatestTag(lines[i..]) == LatestTag(lines)
    {
      var line := lines[i];
      assert lines[i..][1..] == lines[i + 1..];
      if Contains(line, TagRef) && !Contains(line, Peeled) {
        var parts := Split(line, TagRef);
        if |parts| > 1 {
          var latestTag := TrimSpace(parts[1]);
          return latestTag;
        }
      }
      i := i + 1;
    }
    return "";
  }

  /** The first part of a split starts the text. */
  lemma SplitFirstIsPrefix(s: string, sep: string)
    requires |sep| > 0
    ensures HasPrefix(s, Split(s, sep)[0])
  {
  }

  /** A text holding the separator splits into at least two parts, the
    * second starting at `i`. */
  lemma SplitSecondAt(s: string, sep: string) returns (i: nat)
    requires |sep| > 0 && Contains(s, sep)
    ensures var parts := Split(s, sep);
            |parts| > 1 && i + |parts[1]| <= |s| && s[i..i + |parts[1]|] == parts[1]
  {
    var parts := Split(s, sep);
    i := JoinSecondAt(parts, sep);
  }

  /** In joined parts the second part starts after the first and the
    * separator. */
  lemma JoinSecondAt(parts: seq<string>, sep: string) returns (i: nat)
    requires |parts| > 1
    ensures var s := Join(parts, sep);
            i + |parts[1]| <= |s| && s[i..i + |parts[1]|] == parts[1]
  {
    var tail := Join(parts[1..], sep);
    assert HasPrefix(tail, parts[1]) by {
      if |parts| > 2 {
        assert tail == parts[1] + (sep + Join(parts[2..], sep)) by { assert parts[1..][1..] == parts[2..]; }
      }
    }
    i := |parts[0]| + |sep|;
    var s := Join(parts, sep);
    assert s == (parts[0] + sep) + tail;
    assert s[i..i + |parts[1]|] == tail[..|parts[1]|];
  }

  /** A line holding "refs/tags/" splits there into at least two parts. */
  lemma SplitAtTagRef(line: string) returns (i: nat)
    requires Contains(line, TagRef)
    ensures var parts := Split(line, TagRef);
            |parts| > 1 && i + |parts[1]| <= |line| && line[i..i + |parts[1]|] == parts[1]
  {
    i := SplitSecondAt(line, TagRef);
  }

  /** A pattern found in a slice is found in the whole text. */
  lemma ContainsInSlice(s: string, i: nat, t: string, p: string)
    requires i + |t| <= |s| && s[i..i + |t|] == t && Contains(t, p)
    ensures Contains(s, p)
  {
    var k := Index(t, p);
    assert OccursAt(t, p, k);
    SliceOfSlice(s, i, t, k, p);
    assert OccursAt(s, p, i + k);
  }

  /** A slice of a slice is a slice. */
  lemma SliceOfSlice(s: string, i: nat, part: string, j: nat, t: string)
    requires i + |part| <= |s| && s[i..i + |part|] == part
    requires j + |t| <= |part| && part[j..j + |t|] == t
    ensures s[i + j..i + j + |t|] == t
  {
    forall k | 0 <= k < |t| ensures s[i + j + k] == t[k] {
      assert t[k] == part[j + k] && part[j + k] == s[i + j + k];
    }
  }

  /** The tag of a line is a piece of the line. */
  lemma TagIsSlice(line: string) returns (a: nat)
    requires Contains(line, TagRef)
    ensures a + |TagOf(line)| <= |line| && line[a..a + |TagOf(line)|] == TagOf(line)
  {
    var i := SplitAtTagRef(line);
    a := TrimmedSlice(line, i, Split(line, TagRef)[1]);
  }

  /** Trimming a piece of a text leaves a piece of the text. */
  lemma TrimmedSlice(s: string, i: nat, part: string) returns (a: nat)
    requires i + |part| <= |s| && s[i..i + |part|] == part
    ensures a + |TrimSpace(part)| <= |s| && s[a..a + |TrimSpace(part)|] == TrimSpace(part)
  {
    TrimSpaceSpec(part);
    var tag := TrimSpace(part);
    var j :| SpaceTrimmedAt(part, tag, j);
    SliceOfSlice(s, i, part, j, tag);
    a := i + j;
  }

  /** The tag of a line lacking "^{}" lacks it too. */
  lemma TagLacksPeeled(line: string)
    requires Names(line)
    ensures !Contains(TagOf(line), Peeled)
  {
    var a := TagIsSlice(line);
    var tag := TagOf(line);
    if Contains(tag, Peeled) {
      ContainsInSlice(line, a, tag, Peeled);
    }
  }

  /** The tag picked never holds "^{}": the peeled entries of annotated
    * tags are never taken. */
  lemma {:induction false} LatestTagNotPeeled(lines: seq<string>)
    ensures !Contains(LatestTag(lines), Peeled)
  {
    if |lines| > 0 {
      if Names(lines[0]) && |Split(lines[0], TagRef)| > 1 {
        TagLacksPeeled(lines[0]);
      } else {
        LatestTagNotPeeled(lines[1..]);
      }
    } else {
      assert Index("", Peeled) == -1;
    }
  }

  /** With no line naming a tag the result is "". */
  lemma {:induction false} NoTagLine(lines: seq<string>)
    requires forall k :: 0 <= k < |lines| ==> !Names(lines[k])
    ensures LatestTag(lines) == ""
  {
    if |lines| > 0 {
      assert forall k :: 0 <= k < |lines| - 1 ==> lines[1..][k] == lines[k + 1];
      NoTagLine(lines[1..]);
    }
  }

  /** The result is the tag of the first line naming one: earlier lines,
    * including the peeled entries, are passed over. */
  lemma {:induction false} FirstTagLine(lines: seq<string>, k: nat)
    requires k < |lines| && Names(lines[k])
    requires forall j :: 0 <= j < k ==> !Names(lines[j])
    ensures LatestTag(lines) == TagOf(lines[k])
  {
    var _ := SplitAtTagRef(lines[k]);
    if k > 0 {
      assert !Names(lines[0]);
      assert forall j :: 0 <= j < k - 1 ==> lines[1..][j] == lines[j + 1];
      FirstTagLine(lines[1..], k - 1);
    }
  }

  /** No 'r' before position `n`, so "refs/tags/" cannot start there. */
  lemma NoRefBefore(s: string, n: nat)
    requires n <= |s| && forall k :: 0 <= k < n ==> s[k] != 'r'
    ensures forall k :: 0 <= k < n ==> !OccursAt(s, TagRef, k)
  {
    forall k | 0 <= k < n ensures !OccursAt(s, TagRef, k) {
      if k + |TagRef| <= |s| {
        assert s[k..k + |TagRef|][0] == s[k];
      }
    }
  }

  /** A listing line "<hash>\trefs/tags/<name>" gives the name back, for a
    * hexadecimal hash and a name that is already trimmed and holds no
    * further "refs/tags/". */
  lemma TagOfListingLine(hash: string, name: string)
    requires forall k :: 0 <= k < |hash| ==> hash[k] in "0123456789abcdef"
    requires !Contains(name, TagRef)
    requires name == [] || (!IsSpace(name[0]) && !IsSpace(name[|name| - 1]))
    ensures TagOf(hash + "\t" + TagRef + name) == name
  {
    var line := hash + "\t" + TagRef + name;
    var n := |hash| + 1;
    NoRefBefore(line, n);
    assert line[n..n + |TagRef|] == TagRef;
    assert OccursAt(line, TagRef, n);
    assert Index(line, TagRef) == n;
    assert line[n + |TagRef|..] == name;
    assert Split(name, TagRef) == [name];
    if name != [] {
      TrimSpaceOfTrimmed(name);
    }
  }
}
