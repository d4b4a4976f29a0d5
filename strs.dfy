/** The parts of Go's `strings` and `strconv` packages that the modelled code
  * relies on, stated over `seq<char>` (code points; Go indexes bytes, which
  * agree on ASCII text). */
module Strs {
  import opened Common

  // ---------------------------------------------------------------------
  // Prefixes, suffixes and substrings

  predicate HasPrefix(s: string, p: string) { |p| <= |s| && s[..|p|] == p }

  predicate HasSuffix(s: string, p: string) { |p| <= |s| && s[|s| - |p|..] == p }

  function TrimPrefix(s: string, p: string): (r: string)
    ensures HasPrefix(s, p) ==> p + r == s
    ensures !HasPrefix(s, p) ==> r == s
  {
    if HasPrefix(s, p) then s[|p|..] else s
  }

  predicate OccursAt(s: string, sub: string, i: int)
  {
    0 <= i && i + |sub| <= |s| && s[i..i + |sub|] == sub
  }

  /** First position at or after `from` where `sub` occurs, or -1. */
  function IndexFrom(s: string, sub: string, from: nat): (r: int)
    decreases |s| - from
    ensures r == -1 || (from <= r && OccursAt(s, sub, r))
    ensures r == -1 ==> forall k :: from <= k ==> !OccursAt(s, sub, k)
    ensures r != -1 ==> forall k :: from <= k < r ==> !OccursAt(s, sub, k)
  {
    if from + |sub| > |s| then -1
    else if s[from..from + |sub|] == sub then from
    else IndexFrom(s, sub, from + 1)
  }

  /** `strings.Index`: the first occurrence of `sub` in `s`, or -1. */
  function Index(s: string, sub: string): (r: int)
    ensures r == -1 || OccursAt(s, sub, r)
    ensures r == -1 <==> forall k :: !OccursAt(s, sub, k)
    ensures forall k :: 0 <= k < r ==> !OccursAt(s, sub, k)
  {
    IndexFrom(s, sub, 0)
  }

  /** `strings.Contains`. */
  predicate Contains(s: string, sub: string) { Index(s, sub) >= 0 }

  /** `strings.IndexByte` / `strings.IndexRune` for one character. */
  function IndexChar(s: string, c: char): (r: int)
    ensures r == -1 <==> c !in s
    ensures r != -1 ==> 0 <= r < |s| && s[r] == c && c !in s[..r]
  {
    if |s| == 0 then -1
    else if s[0] == c then 0
    else
      var k := IndexChar(s[1..], c);
      if k == -1 then -1
      else
        assert s[..k + 1] == [s[0]] + s[1..][..k];
        k + 1
  }

  /** `strings.LastIndexByte` for one character: its last position, or -1. */
  function LastIndexChar(s: string, c: char): (r: int)
    ensures -1 <= r < |s|
    ensures r != -1 ==> s[r] == c
    ensures forall k :: r < k < |s| ==> s[k] != c
  {
    LastIndexBefore(s, c, |s|)
  }

  /** The last position below `n` holding `c`, or -1. */
  function LastIndexBefore(s: string, c: char, n: nat): (r: int)
    requires n <= |s|
    ensures -1 <= r < n
    ensures r != -1 ==> s[r] == c
    ensures forall k :: r < k < n ==> s[k] != c
  {
    if n == 0 then -1
    else if s[n - 1] == c then n - 1
    else LastIndexBefore(s, c, n - 1)
  }

  /** `t` is what follows the last `c` in `s`: a suffix without `c`, and
    * either all of `s` or preceded by `c`. */
  predicate AfterLast(s: string, c: char, t: string)
  {
    HasSuffix(s, t) && c !in t && (t == s || s[|s| - |t| - 1] == c)
  }

  /** There is only one text after the last `c`. */
  lemma AfterLastUnique(s: string, c: char, t1: string, t2: string)
    requires AfterLast(s, c, t1) && AfterLast(s, c, t2)
    ensures t1 == t2
  {
    assert s[|s| - |t1|..] == t1 && s[|s| - |t2|..] == t2;
  }

  /** The text after the last `c` as `LastIndexChar` finds it. */
  lemma AfterLastIndex(s: string, c: char)
    ensures AfterLast(s, c, s[LastIndexChar(s, c) + 1..])
  {
    var r := LastIndexChar(s, c);
    var t := s[r + 1..];
    assert forall k :: 0 <= k < |t| ==> t[k] == s[r + 1 + k];
    assert s[|s| - |t|..] == t;
    if r == -1 {
      assert t == s;
    }
  }

  /** The last piece of `strings.Split(s, c)` is the text after the last
    * `c`. */
  lemma SplitLastPiece(s: string, c: char)
    ensures var parts := Split(s, [c]); AfterLast(s, c, parts[|parts| - 1])
  {
    var parts := Split(s, [c]);
    var last := parts[|parts| - 1];
    JoinLastPiece(parts, [c]);
    if |parts| > 1 {
      SuffixOfSuffix(s, [c], last);
    }
    LacksChar(last, c);
  }

  /** The last piece of `strings.Split(s, c)`. */
  function LastSplitPiece(s: string, c: char): (t: string)
    ensures AfterLast(s, c, t)
  {
    SplitLastPiece(s, c);
    var parts := Split(s, [c]);
    parts[|parts| - 1]
  }

  lemma {:induction false} JoinLastPiece(parts: seq<string>, sep: string)
    requires |parts| >= 1
    ensures var j, last := Join(parts, sep), parts[|parts| - 1];
            HasSuffix(j, last)
            && (|parts| == 1 ==> j == last)
            && (|parts| > 1 ==> HasSuffix(j, sep + last))
  {
    var j, last := Join(parts, sep), parts[|parts| - 1];
    if |parts| > 1 {
      var rest := parts[1..];
      JoinLastPiece(rest, sep);
      assert rest[|rest| - 1] == last;
      var jr := Join(rest, sep);
      assert j == parts[0] + (sep + jr);
      if |rest| == 1 {
        assert HasSuffix(sep + jr, sep + last);
      } else {
        SuffixOfAppend(sep, jr, sep + last);
      }
      SuffixOfAppend(parts[0], sep + jr, sep + last);
      SuffixOfSuffix(j, sep, last);
    } else {
      assert j[|j| - |last|..] == last;
    }
  }

  /** A suffix of the end of a text is a suffix of the text. */
  lemma SuffixOfAppend(a: string, b: string, x: string)
    requires HasSuffix(b, x)
    ensures HasSuffix(a + b, x)
  {
    assert (a + b)[|a + b| - |x|..] == b[|b| - |x|..];
  }

  /** The end of a suffix is a suffix too, preceded in the text by the
    * rest of that suffix. */
  lemma SuffixOfSuffix(s: string, a: string, b: string)
    requires HasSuffix(s, a + b)
    ensures HasSuffix(s, b)
    ensures |a| > 0 ==> s[|s| - |b| - 1] == a[|a| - 1]
  {
    assert s[|s| - |b|..] == (a + b)[|a|..];
    if |a| > 0 {
      assert s[|s| - |b| - 1] == (a + b)[|a| - 1];
    }
  }

  /** Some prefix in `prefixes` starts `name`, as a loop over the list with
    * `strings.HasPrefix` finds. */
  function HasAnyPrefix(name: string, prefixes: seq<string>): (r: bool)
    ensures r <==> exists k :: 0 <= k < |prefixes| && HasPrefix(name, prefixes[k])
  {
    if |prefixes| == 0 then false
    else if HasPrefix(name, prefixes[0]) then true
    else
      var r := HasAnyPrefix(name, prefixes[1..]);
      assert forall k :: 1 <= k < |prefixes| ==> prefixes[k] == prefixes[1..][k - 1];
      r
  }

  /** Some suffix in `suffixes` ends `name`. */
  function HasAnySuffix(name: string, suffixes: seq<string>): (r: bool)
    ensures r <==> exists k :: 0 <= k < |suffixes| && HasSuffix(name, suffixes[k])
  {
    if |suffixes| == 0 then false
    else if HasSuffix(name, suffixes[0]) then true
    else
      var r := HasAnySuffix(name, suffixes[1..]);
      assert forall k :: 1 <= k < |suffixes| ==> suffixes[k] == suffixes[1..][k - 1];
      r
  }

  // ---------------------------------------------------------------------
  // Ordering

  /** Go's `<` on strings: lexicographic, a proper prefix first. */
  predicate Less(a: string, b: string)
  {
    if |b| == 0 then false
    else if |a| == 0 then true
    else if a[0] != b[0] then a[0] < b[0]
    else Less(a[1..], b[1..])
  }

  /** `<` on strings is a strict total order. */
  lemma {:induction false} LessIsStrictTotal(a: string, b: string, c: string)
    ensures !Less(a, a)
    ensures Less(a, b) ==> !Less(b, a)
    ensures Less(a, b) && Less(b, c) ==> Less(a, c)
    ensures a != b ==> Less(a, b) || Less(b, a)
  {
    if |a| > 0 && |b| > 0 && |c| > 0 {
      LessIsStrictTotal(a[1..], b[1..], c[1..]);
      if a[0] == b[0] && a != b {
        assert a == [a[0]] + a[1..] && b == [b[0]] + b[1..];
      }
    } else if |a| > 0 && |b| > 0 {
      LessIsStrictTotal(a[1..], b[1..], a[1..]);
      if a[0] == b[0] && a != b {
        assert a == [a[0]] + a[1..] && b == [b[0]] + b[1..];
      }
    } else if |a| > 0 {
      LessIsStrictTotal(a[1..], a[1..], a[1..]);
    }
  }

  // ---------------------------------------------------------------------
  // Splitting and joining

  /** `strings.Join`. */
  function Join(parts: seq<string>, sep: string): string
  {
    if |parts| == 0 then ""
    else if |parts| == 1 then parts[0]
    else parts[0] + (sep + Join(parts[1..], sep))
  }

  /** `strings.Split` with a non-empty separator. */
  function Split(s: string, sep: string): (r: seq<string>)
    requires |sep| > 0
    decreases |s|
    ensures |r| >= 1
    ensures Join(r, sep) == s
    ensures forall k :: 0 <= k < |r| ==> !Contains(r[k], sep)
  {
    var i := Index(s, sep);
    if i < 0 then [s]
    else
      var rest := Split(s[i + |sep|..], sep);
      NoEarlierOccurrence(s, sep, i);
      assert s[..i] + sep + s[i + |sep|..] == s;
      [s[..i]] + rest
  }

  /** `strings.SplitN` with a non-empty separator and `n >= 1`: at most
    * `n` pieces, the last holding the unsplit remainder. */
  function SplitN(s: string, sep: string, n: nat): (r: seq<string>)
    requires |sep| > 0 && n >= 1
    decreases n
  {
    var i := Index(s, sep);
    if n == 1 || i < 0 then [s]
    else [s[..i]] + SplitN(s[i + |sep|..], sep, n - 1)
  }

  /** The pieces of `SplitN` join back to the text, and all but the last
    * hold no separator. */
  lemma {:induction false} SplitNSpec(s: string, sep: string, n: nat)
    requires |sep| > 0 && n >= 1
    ensures var r := SplitN(s, sep, n);
            1 <= |r| <= n && Join(r, sep) == s
            && forall k :: 0 <= k < |r| - 1 ==> !Contains(r[k], sep)
    decreases n
  {
    var i := Index(s, sep);
    if n > 1 && i >= 0 {
      var tail := s[i + |sep|..];
      var rest := SplitN(tail, sep, n - 1);
      SplitNSpec(tail, sep, n - 1);
      var r := [s[..i]] + rest;
      assert SplitN(s, sep, n) == r;
      assert Join(r, sep) == s by {
        assert r[1..] == rest;
        assert s[..i] + (sep + tail) == s;
      }
      assert !Contains(r[0], sep) by {
        NoEarlierOccurrence(s, sep, i);
      }
      assert forall k :: 1 <= k < |r| ==> r[k] == rest[k - 1];
    }
  }

  /** The text before the first occurrence of `sep` contains no occurrence. */
  lemma NoEarlierOccurrence(s: string, sep: string, i: int)
    requires |sep| > 0 && 0 <= i && OccursAt(s, sep, i)
    requires forall k :: 0 <= k < i ==> !OccursAt(s, sep, k)
    ensures !Contains(s[..i], sep)
  {
    var p := s[..i];
    forall k | OccursAt(p, sep, k) ensures OccursAt(s, sep, k) {
      assert p[k..k + |sep|] == s[k..k + |sep|];
    }
  }

  /** Splitting at the first separator gives the text before and after it. */
  lemma SplitNTwo(s: string, sep: string)
    requires |sep| > 0
    ensures Index(s, sep) < 0 ==> SplitN(s, sep, 2) == [s]
    ensures Index(s, sep) >= 0 ==>
              SplitN(s, sep, 2) == [s[..Index(s, sep)], s[Index(s, sep) + |sep|..]]
  {
  }

  // ---------------------------------------------------------------------
  // White space

  /** `unicode.IsSpace`. */
  predicate IsSpace(c: char)
  {
    c == ' ' || c == '\t' || c == '\n' || c == '\r' || c == '\U{B}' || c == '\U{C}'
    || c == '\U{85}' || c == '\U{A0}' || c == '\U{1680}'
    || ('\U{2000}' <= c <= '\U{200A}') || c == '\U{2028}' || c == '\U{2029}'
    || c == '\U{202F}' || c == '\U{205F}' || c == '\U{3000}'
  }

  function TrimLeftSpace(s: string): (r: string)
    ensures HasSuffix(s, r)
    ensures r == [] || !IsSpace(r[0])
    ensures forall k :: 0 <= k < |s| - |r| ==> IsSpace(s[k])
  {
    if |s| > 0 && IsSpace(s[0]) then TrimLeftSpace(s[1..]) else s
  }

  function TrimRightSpace(s: string): (r: string)
    ensures HasPrefix(s, r)
    ensures r == [] || !IsSpace(r[|r| - 1])
    ensures forall k :: |r| <= k < |s| ==> IsSpace(s[k])
  {
    if |s| > 0 && IsSpace(s[|s| - 1]) then TrimRightSpace(s[..|s| - 1]) else s
  }

  /** `r` is the part of `s` between a prefix of length `i` and a suffix,
    * where every character of both lies in `cut`. */
  predicate SpaceTrimmedAt(s: string, r: string, i: int)
  {
    0 <= i <= |s| - |r| && s[i..i + |r|] == r
    && (forall k :: 0 <= k < i ==> IsSpace(s[k]))
    && (forall k :: i + |r| <= k < |s| ==> IsSpace(s[k]))
  }

  predicate CharTrimmedAt(s: string, r: string, i: int, c: char)
  {
    0 <= i <= |s| - |r| && s[i..i + |r|] == r
    && (forall k :: 0 <= k < i ==> s[k] == c)
    && (forall k :: i + |r| <= k < |s| ==> s[k] == c)
  }

  /** `strings.TrimSpace`: the text between the leading and trailing white
    * space. Its properties are stated by `TrimSpaceSpec`, so that proofs
    * about many trimmed lines do not carry them where they are not
    * needed. */
  function TrimSpace(s: string): (r: string)
    decreases |s|
  {
    if |s| > 0 && IsSpace(s[0]) then TrimSpace(s[1..])
    else if |s| > 0 && IsSpace(s[|s| - 1]) then TrimSpace(s[..|s| - 1])
    else s
  }

  /** A trim neither starts nor ends with white space, and what it cut off
    * at both ends is white space. */
  lemma {:induction false} TrimSpaceSpec(s: string)
    ensures var r := TrimSpace(s);
            (r == [] || (!IsSpace(r[0]) && !IsSpace(r[|r| - 1])))
            && exists i :: SpaceTrimmedAt(s, r, i)
    decreases |s|
  {
    var r := TrimSpace(s);
    if |s| > 0 && IsSpace(s[0]) {
      TrimSpaceSpec(s[1..]);
      var i :| SpaceTrimmedAt(s[1..], r, i);
      assert s[i + 1..i + 1 + |r|] == s[1..][i..i + |r|];
      assert SpaceTrimmedAt(s, r, i + 1);
    } else if |s| > 0 && IsSpace(s[|s| - 1]) {
      TrimSpaceSpec(s[..|s| - 1]);
      var i :| SpaceTrimmedAt(s[..|s| - 1], r, i);
      assert s[i..i + |r|] == s[..|s| - 1][i..i + |r|];
      assert SpaceTrimmedAt(s, r, i);
    } else {
      assert s[0..|s|] == s;
      assert SpaceTrimmedAt(s, r, 0);
    }
  }

  function TrimLeftChar(s: string, c: char): (r: string)
    ensures HasSuffix(s, r)
    ensures r == [] || r[0] != c
    ensures forall k :: 0 <= k < |s| - |r| ==> s[k] == c
  {
    if |s| > 0 && s[0] == c then TrimLeftChar(s[1..], c) else s
  }

  function TrimRightChar(s: string, c: char): (r: string)
    ensures HasPrefix(s, r)
    ensures r == [] || r[|r| - 1] != c
    ensures forall k :: |r| <= k < |s| ==> s[k] == c
  {
    if |s| > 0 && s[|s| - 1] == c then TrimRightChar(s[..|s| - 1], c) else s
  }

  /** `strings.Trim(s, cutset)` for a one-character cut set. */
  function TrimChar(s: string, c: char): (r: string)
    ensures r == [] || (r[0] != c && r[|r| - 1] != c)
    ensures exists i :: CharTrimmedAt(s, r, i, c)
  {
    var t := TrimLeftChar(s, c);
    var r := TrimRightChar(t, c);
    var i := |s| - |t|;
    assert t == s[i..] && r == t[..|r|];
    assert s[i..i + |r|] == r;
    assert CharTrimmedAt(s, r, i, c);
    r
  }

  /** `strings.Fields`: the maximal runs of non-space characters. */
  function Fields(s: string): (r: seq<string>)
    decreases |s|
    ensures forall k :: 0 <= k < |r| ==> IsWord(r[k])
  {
    var t := TrimLeftSpace(s);
    if t == [] then []
    else
      var n := WordLength(t);
      FirstWord(t);
      [t[..n]] + Fields(t[n..])
  }

  /** A text starting with a non-space character starts with a word. */
  lemma FirstWord(t: string)
    requires t != [] && !IsSpace(t[0])
    ensures 1 <= WordLength(t) <= |t| && IsWord(t[..WordLength(t)])
  {
    var n := WordLength(t);
    forall k | 0 <= k < n ensures !IsSpace(t[..n][k]) {
      assert t[..n][k] == t[k];
    }
  }

  /** A non-empty run of non-space characters. */
  predicate IsWord(w: string)
  {
    |w| > 0 && forall k :: 0 <= k < |w| ==> !IsSpace(w[k])
  }

  /** Length of the leading run of non-space characters. */
  function WordLength(s: string): (n: nat)
    ensures n <= |s|
    ensures forall k :: 0 <= k < n ==> !IsSpace(s[k])
    ensures n < |s| ==> IsSpace(s[n])
  {
    if |s| == 0 || IsSpace(s[0]) then 0 else 1 + WordLength(s[1..])
  }

  // ---------------------------------------------------------------------
  // Case

  /** ASCII lower-casing of one character. */
  function LowerChar(c: char): (r: char)
    ensures 'A' <= c <= 'Z' ==> 'a' <= r <= 'z'
    ensures !('A' <= c <= 'Z') ==> r == c
  {
    if 'A' <= c <= 'Z' then (c as int + 32) as char else c
  }

  /** `strings.ToLower`, restricted to ASCII letters. */
  function ToLower(s: string): (r: string)
    ensures |r| == |s|
    ensures forall k :: 0 <= k < |s| ==> r[k] == LowerChar(s[k])
  {
    if |s| == 0 then [] else [LowerChar(s[0])] + ToLower(s[1..])
  }

  /** `strings.EqualFold`, restricted to ASCII letters. */
  predicate EqualFold(a: string, b: string) { ToLower(a) == ToLower(b) }

  // ---------------------------------------------------------------------
  // Decimal numbers

  predicate IsDigit(c: char) { '0' <= c <= '9' }

  predicate AllDigits(s: string) { forall k :: 0 <= k < |s| ==> IsDigit(s[k]) }

  function DigitsValue(s: string): (v: nat)
    requires AllDigits(s)
  {
    if |s| == 0 then 0
    else DigitsValue(s[..|s| - 1]) * 10 + (s[|s| - 1] as int - '0' as int)
  }

  /** Decimal rendering of a natural number, as `strconv.Itoa` prints it. */
  function NatToString(n: nat): (s: string)
    ensures |s| > 0 && AllDigits(s)
    ensures DigitsValue(s) == n
    ensures |s| > 1 ==> s[0] != '0'
  {
    var d := ['0' + (n % 10) as char];
    if n < 10 then d
    else
      var p := NatToString(n / 10);
      assert (p + d)[..|p + d| - 1] == p;
      p + d
  }

  /** `strconv.Itoa` / `fmt.Sprintf("%d")`. */
  function IntToString(n: int): (s: string)
    ensures |s| > 0
    ensures IsDigit(s[0]) || s[0] == '-'
  {
    if n < 0 then "-" + NatToString(-n) else NatToString(n)
  }

  /** `strconv.Atoi`: an optional sign and one or more decimal digits making
    * up the whole string, within the 64-bit range. */
  function Atoi(s: string): (r: Option<int>)
    ensures r.Some? ==> IsInt64(r.value)
  {
    var neg := |s| > 0 && s[0] == '-';
    var digits := if |s| > 0 && (s[0] == '-' || s[0] == '+') then s[1..] else s;
    if |digits| == 0 || !AllDigits(digits) then None
    else
      var v := if neg then -(DigitsValue(digits) as int) else DigitsValue(digits);
      if IsInt64(v) then Some(v) else None
  }

  /** Decimal rendering and `Atoi` are inverse on 64-bit integers. */
  lemma AtoiOfIntToString(n: int)
    requires IsInt64(n)
    ensures Atoi(IntToString(n)) == Some(n)
  {
    if n < 0 {
      assert ("-" + NatToString(-n))[1..] == NatToString(-n);
    }
  }

  /** Length of the leading run of decimal digits. */
  function DigitRun(s: string): (n: nat)
    ensures n <= |s| && AllDigits(s[..n])
    ensures n < |s| ==> !IsDigit(s[n])
  {
    if |s| == 0 || !IsDigit(s[0]) then 0
    else
      var m := DigitRun(s[1..]);
      assert s[..1 + m] == [s[0]] + s[1..][..m];
      1 + m
  }

  /** `fmt.Sscanf(s, "%d", &n)`: leading white space other than a newline is
    * skipped, then an optional sign and the leading run of digits are read;
    * `None` when no digits follow or the value leaves the 64-bit range (the
    * scan then fails and leaves its target unchanged). Text after the digits
    * is ignored. */
  function ScanInt(s: string): (r: Option<int>)
    decreases |s|
    ensures r.Some? ==> IsInt64(r.value)
  {
    if |s| > 0 && s[0] != '\n' && IsSpace(s[0]) then ScanInt(s[1..])
    else
      var neg := |s| > 0 && s[0] == '-';
      var t := if |s| > 0 && (s[0] == '-' || s[0] == '+') then s[1..] else s;
      var n := DigitRun(t);
      if n == 0 then None
      else
        var v := if neg then -(DigitsValue(t[..n]) as int) else DigitsValue(t[..n]);
        if IsInt64(v) then Some(v) else None
  }

  /** A scanned decimal rendering gives the number back. */
  lemma ScanIntOfNat(n: nat)
    requires n <= INT64_MAX
    ensures ScanInt(NatToString(n)) == Some(n)
  {
    var s := NatToString(n);
    assert DigitRun(s) == |s| by { DigitRunAll(s); }
    assert s[..|s|] == s;
  }

  lemma {:induction false} DigitRunAll(s: string)
    requires AllDigits(s)
    ensures DigitRun(s) == |s|
  {
    if |s| > 0 { DigitRunAll(s[1..]); }
  }

  // ---------------------------------------------------------------------
  // Joined text

  /** Joining one more part adds the separator and that part. */
  lemma {:induction false} JoinAppend(parts: seq<string>, x: string, sep: string)
    requires |parts| >= 1
    ensures Join(parts + [x], sep) == Join(parts, sep) + sep + x
  {
    if |parts| == 1 {
      assert (parts + [x])[1..] == [x];
    } else {
      assert (parts + [x])[1..] == parts[1..] + [x];
      JoinAppend(parts[1..], x, sep);
    }
  }

  /** A word holds no line break. */
  lemma WordLacksNewline(w: string)
    requires IsWord(w)
    ensures '\n' !in w
  {
  }

  /** Lines each followed by a line break, as a builder that writes a line
    * and then "\n" produces them. */
  function Terminated(lines: seq<string>): (r: string)
    ensures lines == [] ==> r == ""
  {
    if |lines| == 0 then "" else Terminated(lines[..|lines| - 1]) + lines[|lines| - 1] + "\n"
  }

  /** Terminated lines followed by one more line are the lines joined by
    * line breaks. */
  lemma {:induction false} TerminatedThenLine(lines: seq<string>, x: string)
    ensures Terminated(lines) + x == Join(lines + [x], "\n")
    decreases |lines|
  {
    if |lines| == 0 {
      assert lines + [x] == [x];
    } else {
      var init, y := lines[..|lines| - 1], lines[|lines| - 1];
      assert lines == init + [y];
      TerminatedThenLine(init, y);
      JoinAppend(init + [y], x, "\n");
    }
  }

  /** The sequences of a sequence, concatenated. */
  function Concat<T>(groups: seq<seq<T>>): (r: seq<T>)
    ensures groups == [] ==> r == []
  {
    if |groups| == 0 then [] else groups[0] + Concat(groups[1..])
  }

  lemma {:induction false} ConcatAppend<T>(groups: seq<seq<T>>, g: seq<T>)
    ensures Concat(groups + [g]) == Concat(groups) + g
  {
    if |groups| == 0 {
      assert [g][1..] == [];
    } else {
      assert (groups + [g])[1..] == groups[1..] + [g];
      ConcatAppend(groups[1..], g);
    }
  }

  /** A character in neither the parts nor the separator is not in their
    * join. */
  lemma {:induction false} JoinLacksChar(parts: seq<string>, sep: string, c: char)
    requires c !in sep && forall k :: 0 <= k < |parts| ==> c !in parts[k]
    ensures c !in Join(parts, sep)
  {
    if |parts| > 1 {
      JoinLacksChar(parts[1..], sep, c);
    }
  }

  /** Splitting a join at a one-character separator that no part holds
    * gives the parts back. */
  lemma {:induction false} SplitJoinChar(parts: seq<string>, c: char)
    requires |parts| >= 1 && forall k :: 0 <= k < |parts| ==> c !in parts[k]
    ensures Split(Join(parts, [c]), [c]) == parts
  {
    var p0 := parts[0];
    if |parts| == 1 {
      NoCharNoSep(p0, c);
    } else {
      var rest := Join(parts[1..], [c]);
      var s := p0 + ([c] + rest);
      assert Join(parts, [c]) == s;
      FirstSepAt(p0, rest, c);
      assert Split(s, [c]) == [p0] + Split(rest, [c]);
      SplitJoinChar(parts[1..], c);
      assert parts == [p0] + parts[1..];
    }
  }

  /** A text lacking `c` splits on it into itself. */
  lemma NoCharNoSep(s: string, c: char)
    requires c !in s
    ensures Index(s, [c]) == -1
  {
    forall k | 0 <= k && k + 1 <= |s| ensures !OccursAt(s, [c], k) {
      assert s[k..k + 1] == [s[k]];
    }
  }

  /** In `p0 + c + rest`, with no `c` in `p0`, the first `c` ends `p0`. */
  lemma FirstSepAt(p0: string, rest: string, c: char)
    requires c !in p0
    ensures var s := p0 + ([c] + rest);
            Index(s, [c]) == |p0| && s[..|p0|] == p0 && s[|p0| + 1..] == rest
  {
    var s := p0 + ([c] + rest);
    forall k | 0 <= k < |p0| ensures !OccursAt(s, [c], k) {
      assert s[k..k + 1] == [s[k]];
    }
    assert s[|p0|..|p0| + 1] == [c];
    assert OccursAt(s, [c], |p0|);
  }

  /** A text in which a one-character string does not occur lacks that
    * character. */
  lemma LacksChar(s: string, c: char)
    requires !Contains(s, [c])
    ensures c !in s
  {
    forall k | 0 <= k < |s| ensures s[k] != c {
      assert !OccursAt(s, [c], k);
      assert s[k..k + 1] == [s[k]];
    }
  }

  /** A one-character string occurs in a text iff the text holds that
    * character. */
  lemma ContainsChar(s: string, c: char)
    ensures Contains(s, [c]) <==> c in s
  {
    if c in s {
      var k :| 0 <= k < |s| && s[k] == c;
      assert s[k..k + 1] == [c];
      assert OccursAt(s, [c], k);
    } else {
      forall k ensures !OccursAt(s, [c], k) {
        if 0 <= k < |s| { assert s[k..k + 1] == [s[k]]; }
      }
    }
  }

  /** A text with no white space at either end is its own trim. */
  lemma TrimSpaceOfTrimmed(s: string)
    requires s != [] && !IsSpace(s[0]) && !IsSpace(s[|s| - 1])
    ensures TrimSpace(s) == s
  {
  }
}
