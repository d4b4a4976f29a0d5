/** The configuration deployer's pure core: which configurations are
  * replaced, which terminal the generated configurations launch, and how
  * the monitor lines of an existing Hyprland configuration and the output
  * sections of an existing Niri configuration are carried over into the
  * newly generated one.
  *
  * The regular expressions the deployer uses are modelled by hand-written
  * matchers over positions of the text: each returns the end of the match
  * starting at a position, and `Scan` collects the leftmost,
  * non-overlapping matches as Go's `FindAll` functions do. */
module ConfigDeployer {
  import opened Common
  import opened Strs
  import opened DepsTypes
  import TuiModel
  import TuiViewsConfig

  // ---------------------------------------------------------------------
  // Choices

  /** `shouldReplaceConfig`: with no replace map (`None`, Go's nil map)
    * every configuration is replaced; otherwise a configuration is replaced
    * unless the map holds `false` for it. */
  function ShouldReplaceConfig(replaceConfigs: Option<map<string, bool>>, configType: string): (r: bool)
    ensures replaceConfigs.None? ==> r
    ensures replaceConfigs.Some? ==> (r <==> configType !in replaceConfigs.value || replaceConfigs.value[configType])
  {
    if replaceConfigs.None? then true
    else configType !in replaceConfigs.value || replaceConfigs.value[configType]
  }

  /** The replace map the installer's confirmation screen builds marks
    * every existing configuration, so each of them is deployed. */
  lemma MarkedConfigsDeployed(flags: map<string, bool>, configs: seq<TuiModel.ExistingConfigInfo>,
                              c: TuiModel.ExistingConfigInfo)
    requires c in configs && c.Exists
    ensures ShouldReplaceConfig(Some(TuiViewsConfig.MarkExisting(flags, configs)), c.ConfigType)
  {
  }

  /** A configuration whose flag the user switched off is left alone. */
  lemma SwitchedOffNotDeployed(flags: map<string, bool>, configType: string)
    requires configType in flags && !flags[configType]
    ensures !ShouldReplaceConfig(Some(flags), configType)
  {
  }

  /** The command the generated configurations launch as terminal: one per
    * known terminal, "ghostty" for any other value. */
  function TerminalCommand(terminal: Terminal): (r: string)
    ensures terminal == TerminalKitty ==> r == "kitty"
    ensures terminal == TerminalAlacritty ==> r == "alacritty"
    ensures terminal != TerminalKitty && terminal != TerminalAlacritty ==> r == "ghostty"
  {
    if terminal == TerminalGhostty then "ghostty"
    else if terminal == TerminalKitty then "kitty"
    else if terminal == TerminalAlacritty then "alacritty"
    else "ghostty"
  }

  /** Different known terminals launch different commands. */
  lemma TerminalCommandsDistinct(a: Terminal, b: Terminal)
    requires a in {TerminalGhostty, TerminalKitty, TerminalAlacritty}
    requires b in {TerminalGhostty, TerminalKitty, TerminalAlacritty}
    requires a != b
    ensures TerminalCommand(a) != TerminalCommand(b)
  {
  }

  // ---------------------------------------------------------------------
  // Matching

  /** A matcher: the end of its match starting at a position, if any. */
  type Matcher = (string, nat) -> Option<nat>

  /** `m` matches a non-empty stretch of `s` starting at `a`. */
  predicate MatchAt(s: string, m: Matcher, a: nat)
  {
    a < |s| && m(s, a).Some? && a < m(s, a).value <= |s|
  }

  /** The leftmost, non-overlapping matches of `m` from `p` on, as
    * (start, end) spans: after a match the search resumes at its end,
    * otherwise one position further. */
  function Scan(s: string, m: Matcher, p: nat): (r: seq<(nat, nat)>)
    decreases |s| - p
    ensures forall i :: 0 <= i < |r| ==> p <= r[i].0 && MatchAt(s, m, r[i].0) && r[i].1 == m(s, r[i].0).value
    ensures forall i, j :: 0 <= i < j < |r| ==> r[i].1 <= r[j].0
    ensures r == [] ==> forall a :: p <= a < |s| ==> !MatchAt(s, m, a)
    ensures r != [] ==> forall a :: p <= a < r[0].0 ==> !MatchAt(s, m, a)
  {
    if p >= |s| then []
    else if MatchAt(s, m, p) then [(p, m(s, p).value)] + Scan(s, m, m(s, p).value)
    else Scan(s, m, p + 1)
  }

  /** Ordered, non-empty spans within `s`, from `p` on. */
  predicate Spans(s: string, spans: seq<(nat, nat)>, p: nat)
  {
    (forall i :: 0 <= i < |spans| ==> p <= spans[i].0 < spans[i].1 <= |s|)
    && (forall i, j :: 0 <= i < j < |spans| ==> spans[i].1 <= spans[j].0)
  }

  /** The texts of the spans. */
  function Pieces(s: string, spans: seq<(nat, nat)>): (r: seq<string>)
    requires Spans(s, spans, 0)
    ensures |r| == |spans|
  {
    seq(|spans|, i requires 0 <= i < |spans| => s[spans[i].0..spans[i].1])
  }

  /** `FindAllString(s, -1)`. */
  function FindAll(s: string, m: Matcher): (r: seq<string>)
  {
    Pieces(s, Scan(s, m, 0))
  }

  /** `FindStringIndex`: the leftmost match. */
  function FindFirst(s: string, m: Matcher): (r: Option<(nat, nat)>)
  {
    var spans := Scan(s, m, 0);
    if spans == [] then None else Some(spans[0])
  }

  /** The text from `p` on with the spans cut out. */
  function Gaps(s: string, spans: seq<(nat, nat)>, p: nat): (r: string)
    requires p <= |s| && Spans(s, spans, p)
    decreases |spans|
  {
    if |spans| == 0 then s[p..]
    else
      s[p..spans[0].0] + Gaps(s, spans[1..], spans[0].1)
  }

  /** `ReplaceAllString(s, "")`. */
  function RemoveAll(s: string, m: Matcher): (r: string)
  {
    Gaps(s, Scan(s, m, 0), 0)
  }

  /** Position `a` lies inside one of the spans. */
  predicate Covered(spans: seq<(nat, nat)>, a: nat)
  {
    exists i :: 0 <= i < |spans| && spans[i].0 <= a < spans[i].1
  }

  /** Every match start from `p` on lies inside one of the spans the scan
    * collects: no match is passed over. */
  lemma {:induction false} ScanCovers(s: string, m: Matcher, p: nat, a: nat)
    requires p <= a && MatchAt(s, m, a)
    ensures Covered(Scan(s, m, p), a)
    decreases |s| - p
  {
    var r := Scan(s, m, p);
    if MatchAt(s, m, p) {
      var e := m(s, p).value;
      assert r == [(p, e)] + Scan(s, m, e);
      if e <= a {
        ScanCovers(s, m, e, a);
        CoveredCons((p, e), Scan(s, m, e), a);
      } else {
        assert r[0].0 <= a < r[0].1;
      }
    } else {
      assert r == Scan(s, m, p + 1);
      ScanCovers(s, m, p + 1, a);
    }
  }

  /** A position inside a span stays covered when a span goes in front. */
  lemma CoveredCons(x: (nat, nat), spans: seq<(nat, nat)>, a: nat)
    requires Covered(spans, a)
    ensures Covered([x] + spans, a)
  {
    var i :| 0 <= i < |spans| && spans[i].0 <= a < spans[i].1;
    assert ([x] + spans)[i + 1] == spans[i];
  }

  /** With no match from `p` up to a match at `a`, the scan starts with
    * that match. */
  lemma {:induction false} ScanFrom(s: string, m: Matcher, p: nat, a: nat)
    requires p <= a && MatchAt(s, m, a)
    requires forall k :: p <= k < a ==> !MatchAt(s, m, k)
    ensures Scan(s, m, p) == [(a, m(s, a).value)] + Scan(s, m, m(s, a).value)
    decreases a - p
  {
    if p < a {
      ScanFrom(s, m, p + 1, a);
    }
  }

  /** With no match from `p` on, the scan finds nothing. */
  lemma {:induction false} ScanNone(s: string, m: Matcher, p: nat)
    requires forall k :: p <= k < |s| ==> !MatchAt(s, m, k)
    ensures Scan(s, m, p) == []
    decreases |s| - p
  {
    if p < |s| {
      ScanNone(s, m, p + 1);
    }
  }

  /** `text` with `comment` and then each piece on a line of its own
    * written at `pos`, as the merges' string builders write them. */
  function Inserted(text: string, pos: nat, comment: string, pieces: seq<string>): (r: string)
    requires pos <= |text|
    ensures |r| >= |text| + |comment|
  {
    text[..pos] + comment + Terminated(pieces) + text[pos..]
  }

  /** The string builder of the merges: the text up to `pos`, the
    * comment, each piece followed by a line break, the rest of the text. */
  method BuildInserted(text: string, pos: nat, comment: string, pieces: seq<string>) returns (r: string)
    requires pos <= |text|
    ensures r == Inserted(text, pos, comment, pieces)
  {
    var builder := text[..pos] + comment;
    var i := 0;
    while i < |pieces|
      invariant 0 <= i <= |pieces|
      invariant builder == text[..pos] + comment + Terminated(pieces[..i])
    {
      assert pieces[..i + 1] == pieces[..i] + [pieces[i]];
      assert pieces[..i + 1][..i] == pieces[..i];
      builder := builder + pieces[i] + "\n";
      i := i + 1;
    }
    assert pieces[..i] == pieces;
    r := builder + text[pos..];
  }

  /** What is inserted sits whole in the middle of the result, after what
    * stood before the position and before all that followed it. */
  lemma InsertedParts(text: string, pos: nat, comment: string, pieces: seq<string>)
    requires pos <= |text|
    ensures var r := Inserted(text, pos, comment, pieces);
            var n := pos + |comment| + |Terminated(pieces)|;
            r[..pos] == text[..pos] && r[pos..pos + |comment|] == comment
            && r[pos + |comment|..n] == Terminated(pieces) && r[n..] == text[pos..]
  {
  }

  // ---------------------------------------------------------------------
  // Pieces of the patterns

  /** Go's `\s`: `[\t\n\f\r ]`. */
  predicate ReSpace(c: char)
  {
    c == ' ' || c == '\t' || c == '\n' || c == '\U{C}' || c == '\r'
  }

  /** `^` in multi-line mode. */
  predicate LineStart(s: string, p: nat)
  {
    p <= |s| && (p == 0 || s[p - 1] == '\n')
  }

  predicate LiteralAt(s: string, p: nat, lit: string)
  {
    p + |lit| <= |s| && s[p..p + |lit|] == lit
  }

  /** `\s*`: the end of the white space run from `p`. */
  function SkipSpace(s: string, p: nat): (q: nat)
    requires p <= |s|
    ensures p <= q <= |s|
    decreases |s| - p
  {
    if p < |s| && ReSpace(s[p]) then SkipSpace(s, p + 1) else p
  }

  /** The first `c` from `p` on, or the end of the text. */
  function SkipTo(s: string, p: nat, c: char): (q: nat)
    requires p <= |s|
    ensures p <= q <= |s|
    decreases |s| - p
  {
    if p < |s| && s[p] != c then SkipTo(s, p + 1, c) else p
  }

  /** `.*$` in multi-line mode: the rest of the line. */
  function LineEnd(s: string, p: nat): (q: nat)
    requires p <= |s|
    ensures p <= q <= |s|
  {
    SkipTo(s, p, '\n')
  }

  /** A white space run is white space, and what follows it is not. */
  lemma {:induction false} SkipSpaceSpec(s: string, p: nat)
    requires p <= |s|
    ensures var q := SkipSpace(s, p);
            (q < |s| ==> !ReSpace(s[q])) && forall k :: p <= k < q ==> ReSpace(s[k])
    decreases |s| - p
  {
    if p < |s| && ReSpace(s[p]) {
      SkipSpaceSpec(s, p + 1);
    }
  }

  /** The characters skipped are not `c`, and the one reached is. */
  lemma {:induction false} SkipToSpec(s: string, p: nat, c: char)
    requires p <= |s|
    ensures var q := SkipTo(s, p, c);
            (q < |s| ==> s[q] == c) && forall k :: p <= k < q ==> s[k] != c
    decreases |s| - p
  {
    if p < |s| && s[p] != c {
      SkipToSpec(s, p + 1, c);
    }
  }

  /** A white space run ends where the characters stop being white space. */
  lemma SkipSpaceAt(s: string, p: nat, q: nat)
    requires p <= q <= |s| && (q < |s| ==> !ReSpace(s[q]))
    requires forall k :: p <= k < q ==> ReSpace(s[k])
    ensures SkipSpace(s, p) == q
  {
    SkipSpaceSpec(s, p);
  }

  // ---------------------------------------------------------------------
  // Hyprland

  /** Where the keyword of a monitor match from `p` has to start: after
    * an optional "#" and a white space run. A leading "#" that does not
    * start a match cannot start one without it either, since "#" is
    * neither white space nor the keyword. */
  function MonitorKeyword(s: string, p: nat): (k: nat)
    requires p <= |s|
    ensures p <= k <= |s|
  {
    SkipSpace(s, if p < |s| && s[p] == '#' then p + 1 else p)
  }

  /** `(?m)^#?\s*monitor\s*=.*$`: a monitor line, commented out or not. The
    * white space runs may cross line breaks, so a match also takes the
    * blank lines before the keyword. */
  function MonitorAt(s: string, p: nat): (r: Option<nat>)
  {
    if !LineStart(s, p) then None
    else
      var k := MonitorKeyword(s, p);
      if !LiteralAt(s, k, "monitor") then None
      else
        var q := SkipSpace(s, k + 7);
        if q < |s| && s[q] == '=' then Some(LineEnd(s, q + 1)) else None
  }

  /** The keyword holds neither white space nor line breaks. */
  lemma KeywordChars(s: string, k: nat)
    requires LiteralAt(s, k, "monitor")
    ensures s[k] == 'm' && forall j :: k <= j < k + 7 ==> !ReSpace(s[j])
  {
    forall j | k <= j < k + 7 ensures !ReSpace(s[j]) {
      assert s[j] == s[k..k + 7][j - k];
    }
    assert s[k] == s[k..k + 7][0];
  }

  /** `(?m)^# monitor = eDP-2.*$`: the example monitor line of the
    * generated configuration. */
  function ExampleMonitorAt(s: string, p: nat): (r: Option<nat>)
  {
    if LineStart(s, p) && LiteralAt(s, p, "# monitor = eDP-2") then Some(LineEnd(s, p + 17)) else None
  }

  const MonitorHeader := "# MONITOR CONFIG\n# =================="

  /** `(?m)^# MONITOR CONFIG\n# ==================$`: the two header lines. */
  function MonitorHeaderAt(s: string, p: nat): (r: Option<nat>)
  {
    if LineStart(s, p) && LiteralAt(s, p, MonitorHeader) && (p + 37 == |s| || s[p + 37] == '\n')
    then Some(p + 37) else None
  }

  const MonitorsComment := "# Monitors from existing configuration\n"

  /** The generated configuration with its example monitor line emptied. */
  function WithoutExampleMonitor(newConfig: string): string
  {
    RemoveAll(newConfig, ExampleMonitorAt)
  }

  /** The header cannot close the text: the source slices one character
    * past it. */
  predicate HeaderNotLast(newConfig: string)
  {
    var merged := WithoutExampleMonitor(newConfig);
    var header := FindFirst(merged, MonitorHeaderAt);
    header.Some? ==> header.value.1 < |merged|
  }

  /** `mergeHyprlandMonitorSections`: with no monitor line in the existing
    * configuration the generated one is kept as it is; otherwise the
    * example monitor line is emptied, and right after the first
    * "MONITOR CONFIG" header a comment line and every existing monitor
    * line, in order, are inserted. Without the header it fails. */
  method MergeHyprlandMonitorSections(newConfig: string, existingConfig: string) returns (r: Result<string>)
    requires FindAll(existingConfig, MonitorAt) != [] ==> HeaderNotLast(newConfig)
    ensures var monitors := FindAll(existingConfig, MonitorAt);
            var merged := WithoutExampleMonitor(newConfig);
            var header := FindFirst(merged, MonitorHeaderAt);
            (monitors == [] ==> r == Ok(newConfig))
            && (monitors != [] && header.None? ==> r == Err("could not find MONITOR CONFIG section"))
            && (monitors != [] && header.Some? ==>
                  var insertPos := header.value.1 + 1;
                  insertPos <= |merged|
                  && r == Ok(merged[..insertPos] + MonitorsComment + Terminated(monitors) + merged[insertPos..]))
  {
    var monitors := FindAll(existingConfig, MonitorAt);
    if |monitors| == 0 {
      return Ok(newConfig);
    }
    var merged := WithoutExampleMonitor(newConfig);
    var header := FindFirst(merged, MonitorHeaderAt);
    if header.None? {
      return Err("could not find MONITOR CONFIG section");
    }
    var insertPos := header.value.1 + 1;
    var text := BuildInserted(merged, insertPos, MonitorsComment, monitors);
    r := Ok(text);
  }

  /** The monitors are inserted right after the header line and its line
    * break, and no earlier position holds the header. */
  lemma InsertedAfterHeader(merged: string)
    requires FindFirst(merged, MonitorHeaderAt).Some?
    ensures var e := FindFirst(merged, MonitorHeaderAt).value.1;
            e >= 37 && merged[e - 37..e] == MonitorHeader && LineStart(merged, e - 37)
            && forall a :: 0 <= a < e - 37 ==> !MatchAt(merged, MonitorHeaderAt, a)
  {
  }

  /** A monitor match that spans a later line start which starts a monitor
    * match of its own ends where that one ends: the later one is the same
    * keyword, reached across blank lines. */
  lemma MonitorOverlap(s: string, a: nat, p: nat)
    requires MatchAt(s, MonitorAt, a) && MatchAt(s, MonitorAt, p)
    requires a < p < MonitorAt(s, a).value
    ensures MonitorAt(s, a).value == MonitorAt(s, p).value
  {
    var k := MonitorKeyword(s, a);
    var h := if s[a] == '#' then a + 1 else a;
    assert k == SkipSpace(s, h);
    SkipSpaceSpec(s, h);
    assert s[p - 1] == '\n';
    if p - 1 < h {
      assert false;
    } else if p - 1 < k {
      LeadingRun(s, a, p);
    } else {
      AfterKeyword(s, a, p);
      assert false;
    }
  }

  /** A line start within the white space before the keyword: the match
    * from there reaches the same keyword. */
  lemma LeadingRun(s: string, a: nat, p: nat)
    requires MatchAt(s, MonitorAt, a) && 0 < p <= MonitorKeyword(s, a)
    requires forall j :: p - 1 <= j < MonitorKeyword(s, a) ==> ReSpace(s[j])
    requires LineStart(s, p)
    ensures MonitorAt(s, a) == MonitorAt(s, p)
  {
    var k := MonitorKeyword(s, a);
    KeywordChars(s, k);
    assert s[p] != '#' by {
      if p < k { assert ReSpace(s[p]); }
    }
    SkipSpaceAt(s, p, k);
    assert MonitorKeyword(s, p) == k;
  }

  /** A line start past the keyword of a match starts no match of its own:
    * the line break before it lies in the white space before "=", and
    * what follows is white space or "=". */
  lemma AfterKeyword(s: string, a: nat, p: nat)
    requires MatchAt(s, MonitorAt, a) && MonitorKeyword(s, a) < p < MonitorAt(s, a).value
    requires LineStart(s, p)
    ensures !MatchAt(s, MonitorAt, p)
  {
    var k := MonitorKeyword(s, a);
    var q := SkipSpace(s, k + 7);
    var e := LineEnd(s, q + 1);
    assert MonitorAt(s, a) == Some(e);
    KeywordChars(s, k);
    SkipSpaceSpec(s, k + 7);
    SkipToSpec(s, q + 1, '\n');
    assert s[p - 1] == '\n';
    assert k + 7 < p <= q;
    assert s[p] != '#' by {
      if p < q { assert ReSpace(s[p]); }
    }
    SkipSpaceAt(s, p, q);
    assert MonitorKeyword(s, p) == q;
    assert !LiteralAt(s, q, "monitor") by {
      if q + 7 <= |s| { assert s[q..q + 7][0] == '='; }
    }
  }

  /** Every monitor line of the existing configuration is carried over: it
    * ends one of the extracted monitor sections. */
  lemma MonitorLinesKept(existingConfig: string, p: nat)
    requires MatchAt(existingConfig, MonitorAt, p)
    ensures var spans := Scan(existingConfig, MonitorAt, 0);
            var monitors := FindAll(existingConfig, MonitorAt);
            exists i :: 0 <= i < |monitors| && spans[i].0 <= p
                        && HasSuffix(monitors[i], existingConfig[p..MonitorAt(existingConfig, p).value])
  {
    var s := existingConfig;
    var spans := Scan(s, MonitorAt, 0);
    ScanCovers(s, MonitorAt, 0, p);
    var i :| 0 <= i < |spans| && spans[i].0 <= p < spans[i].1;
    assert spans[i].1 == MonitorAt(s, p).value by {
      SpanEnd(s, MonitorAt, i);
      if spans[i].0 < p {
        MonitorOverlap(s, spans[i].0, p);
      }
    }
    MatchEndsPiece(s, MonitorAt, p, i);
  }

  /** A match inside a span that ends with it ends the span's piece. */
  lemma MatchEndsPiece(s: string, m: Matcher, p: nat, i: nat)
    requires i < |Scan(s, m, 0)| && Scan(s, m, 0)[i].0 <= p && MatchAt(s, m, p)
    requires Scan(s, m, 0)[i].1 == m(s, p).value
    ensures i < |FindAll(s, m)| && HasSuffix(FindAll(s, m)[i], s[p..m(s, p).value])
  {
    PieceAt(s, m, i);
    SliceSuffix(s, Scan(s, m, 0)[i].0, p, m(s, p).value);
  }

  /** Each span the scan collects ends where the match at its start ends. */
  lemma SpanEnd(s: string, m: Matcher, i: nat)
    requires i < |Scan(s, m, 0)|
    ensures MatchAt(s, m, Scan(s, m, 0)[i].0)
    ensures Scan(s, m, 0)[i].1 == m(s, Scan(s, m, 0)[i].0).value
  {
  }

  /** Each piece `FindAll` returns is the text of its span. */
  lemma PieceAt(s: string, m: Matcher, i: nat)
    requires i < |Scan(s, m, 0)|
    ensures |FindAll(s, m)| == |Scan(s, m, 0)|
    ensures FindAll(s, m)[i] == s[Scan(s, m, 0)[i].0..Scan(s, m, 0)[i].1]
  {
  }

  /** The end of a stretch of text is a suffix of the stretch. */
  lemma SliceSuffix(s: string, a: nat, p: nat, e: nat)
    requires a <= p <= e <= |s|
    ensures HasSuffix(s[a..e], s[p..e])
  {
    assert s[a..e][(e - a) - (e - p)..] == s[p..e];
  }

  /** Every example monitor line of the generated configuration lies in a
    * stretch that is cut out. */
  lemma ExampleMonitorsRemoved(newConfig: string, p: nat)
    requires MatchAt(newConfig, ExampleMonitorAt, p)
    ensures Covered(Scan(newConfig, ExampleMonitorAt, 0), p)
  {
    ScanCovers(newConfig, ExampleMonitorAt, 0, p);
  }

  /** The text the deployer writes: a merge that fails leaves the generated
    * configuration as it is, and with no existing configuration there is
    * nothing to merge. */
  method HyprlandConfigToWrite(newConfig: string, existingConfig: string) returns (text: string)
    requires existingConfig != "" && FindAll(existingConfig, MonitorAt) != [] ==> HeaderNotLast(newConfig)
    ensures existingConfig == "" || FindAll(existingConfig, MonitorAt) == [] ==> text == newConfig
    ensures FindFirst(WithoutExampleMonitor(newConfig), MonitorHeaderAt).None? ==> text == newConfig
    ensures var monitors := FindAll(existingConfig, MonitorAt);
            var merged := WithoutExampleMonitor(newConfig);
            var header := FindFirst(merged, MonitorHeaderAt);
            existingConfig != "" && monitors != [] && header.Some? ==>
              var insertPos := header.value.1 + 1;
              insertPos <= |merged|
              && text == merged[..insertPos] + MonitorsComment + Terminated(monitors) + merged[insertPos..]
    ensures text != newConfig ==> Contains(text, MonitorsComment)
  {
    text := newConfig;
    if existingConfig != "" {
      var merged := MergeHyprlandMonitorSections(newConfig, existingConfig);
      if merged.Ok? {
        text := merged.value;
        if text != newConfig {
          var m := WithoutExampleMonitor(newConfig);
          var insertPos := FindFirst(m, MonitorHeaderAt).value.1 + 1;
          ContainsMiddle(m[..insertPos], MonitorsComment, Terminated(FindAll(existingConfig, MonitorAt)) + m[insertPos..]);
          assert text == m[..insertPos] + MonitorsComment + (Terminated(FindAll(existingConfig, MonitorAt)) + m[insertPos..]);
        }
      }
    }
  }

  /** A text holds what is written in its middle. */
  lemma ContainsMiddle(a: string, b: string, c: string)
    ensures Contains(a + b + c, b)
  {
    var s := a + b + c;
    assert OccursAt(s, b, |a|) by { assert s[|a|..|a| + |b|] == b; }

  }

  // ---------------------------------------------------------------------
  // Niri

  /** `[^{}]*(?:\{[^{}]*\}[^{}]*)*\}` from `p`: the end just past the brace
    * that closes the section, where `nested` says that a brace of one
    * nested group is open. Braces nest one level deep at most. */
  function BlockEnd(s: string, p: nat, nested: bool): (r: Option<nat>)
    requires p <= |s|
    ensures r.Some? ==> p < r.value <= |s| && s[r.value - 1] == '}'
    decreases |s| - p
  {
    if p == |s| then None
    else if s[p] == '{' then (if nested then None else BlockEnd(s, p + 1, true))
    else if s[p] == '}' then (if nested then BlockEnd(s, p + 1, false) else Some(p + 1))
    else BlockEnd(s, p + 1, nested)
  }

  /** `(?m)^(/-)?\s*output\s+"[^"]+"\s*\{…\}`: an output section, commented
    * out with "/-" or not. A leading "/-" that does not start a match
    * cannot start one without it either. */
  function OutputAt(s: string, p: nat): (r: Option<nat>)
  {
    if !LineStart(s, p) then None
    else
      var k := KeywordPos(s, p);
      if !LiteralAt(s, k, "output") then None else OutputBody(s, k + 6)
  }

  /** Where the keyword may start: after an optional "/-" and blanks. */
  function KeywordPos(s: string, p: nat): (k: nat)
    requires p <= |s|
    ensures p <= k <= |s|
  {
    SkipSpace(s, if LiteralAt(s, p, "/-") then p + 2 else p)
  }

  /** `\s+"[^"]+"\s*\{…\}` from `p`, just past the keyword: the end just
    * past the closing brace of the section. */
  function OutputBody(s: string, p: nat): (r: Option<nat>)
    requires p <= |s|
    ensures r.Some? ==> p < r.value <= |s| && s[r.value - 1] == '}'
  {
    var q := SkipSpace(s, p);
    if q == p || q == |s| || s[q] != '"' then None
    else
      var c := SkipTo(s, q + 1, '"');
      if c == q + 1 || c == |s| then None
      else
        var b := SkipSpace(s, c + 1);
        if b < |s| && s[b] == '{' then BlockEnd(s, b + 1, false) else None
  }

  const ExampleOutputHead := "/-output \"eDP-2\" {"

  /** `(?m)^/-output "eDP-2" \{…\}`: the example output section of the
    * generated configuration. */
  function ExampleOutputAt(s: string, p: nat): (r: Option<nat>)
  {
    if LineStart(s, p) && LiteralAt(s, p, ExampleOutputHead) then BlockEnd(s, p + 18, false) else None
  }

  /** `(?m)^}$`: a line holding only a closing brace. */
  function CloseLineAt(s: string, p: nat): (r: Option<nat>)
  {
    if LineStart(s, p) && p < |s| && s[p] == '}' && (p + 1 == |s| || s[p + 1] == '\n') then Some(p + 1) else None
  }

  const OutputsComment := "\n// Outputs from existing configuration\n"

  /** The generated configuration without its example output section. */
  function WithoutExampleOutput(newConfig: string): string
  {
    RemoveAll(newConfig, ExampleOutputAt)
  }

  /** `mergeNiriOutputSections`: with no output section in the existing
    * configuration the generated one is kept as it is; otherwise the
    * example output section is removed, and after the first line holding
    * only "}" a comment and every existing output section, in order, are
    * inserted. Without such a line it fails. The line is looked up in the
    * text the example was removed from; see `AsWrittenOutputInsertPos` for
    * the source's own lookup. */
  method MergeNiriOutputSections(newConfig: string, existingConfig: string) returns (r: Result<string>)
    ensures var outputs := FindAll(existingConfig, OutputAt);
            var merged := WithoutExampleOutput(newConfig);
            var close := FindFirst(merged, CloseLineAt);
            (outputs == [] ==> r == Ok(newConfig))
            && (outputs != [] && close.None? ==> r == Err("could not find insertion point for output sections"))
            && (outputs != [] && close.Some? ==>
                  var insertPos := close.value.1;
                  insertPos <= |merged|
                  && r == Ok(merged[..insertPos] + OutputsComment + Terminated(outputs) + merged[insertPos..]))
  {
    var outputs := FindAll(existingConfig, OutputAt);
    if |outputs| == 0 {
      return Ok(newConfig);
    }
    var merged := WithoutExampleOutput(newConfig);
    var close := FindFirst(merged, CloseLineAt);
    if close.None? {
      return Err("could not find insertion point for output sections");
    }
    var insertPos := close.value.1;
    var text := BuildInserted(merged, insertPos, OutputsComment, outputs);
    r := Ok(text);
  }

  /** The outputs are inserted right after a line holding only "}", the
    * first one. */
  lemma InsertedAfterCloseLine(merged: string)
    requires FindFirst(merged, CloseLineAt).Some?
    ensures var e := FindFirst(merged, CloseLineAt).value.1;
            e >= 1 && merged[e - 1] == '}' && LineStart(merged, e - 1)
            && (e == |merged| || merged[e] == '\n')
            && forall a :: 0 <= a < e - 1 ==> !MatchAt(merged, CloseLineAt, a)
  {
  }

  /** Every output section of the existing configuration starts inside one
    * of the extracted sections, so none is dropped. */
  lemma OutputSectionsKept(existingConfig: string, p: nat)
    requires MatchAt(existingConfig, OutputAt, p)
    ensures Covered(Scan(existingConfig, OutputAt, 0), p)
  {
    ScanCovers(existingConfig, OutputAt, 0, p);
  }

  /** An output section ends with a closing brace and names the keyword
    * "output" after the line start. */
  lemma OutputShape(s: string, a: nat, e: nat)
    requires MatchAt(s, OutputAt, a) && e == OutputAt(s, a).value
    ensures a < e <= |s| && LineStart(s, a) && s[e - 1] == '}' && Contains(s[a..e], "output")
  {
    var k := KeywordPos(s, a);
    assert LineStart(s, a) && LiteralAt(s, k, "output") && OutputAt(s, a) == OutputBody(s, k + 6);
    ContainsAt(s, a, k, e, "output");
  }

  /** A word found between `a` and `e` is contained in that stretch. */
  lemma ContainsAt(s: string, a: nat, k: nat, e: nat, w: string)
    requires a <= k && k + |w| <= e <= |s| && s[k..k + |w|] == w
    ensures Contains(s[a..e], w)
  {
    assert s[a..e] == s[a..k] + w + s[k + |w|..e];
    ContainsMiddle(s[a..k], w, s[k + |w|..e]);
  }

  /** Every extracted output section is an output section: it starts a
    * line, names the keyword "output" and ends with its closing brace. */
  lemma ExtractedAreOutputs(existingConfig: string, i: nat)
    requires i < |FindAll(existingConfig, OutputAt)|
    ensures var spans := Scan(existingConfig, OutputAt, 0);
            var piece := FindAll(existingConfig, OutputAt)[i];
            LineStart(existingConfig, spans[i].0) && piece != [] && piece[|piece| - 1] == '}'
            && Contains(piece, "output")
  {
    OutputsShaped(existingConfig);
    PieceShaped(existingConfig, OutputAt, i, "output");
  }

  /** `OutputShape` for every output section at once. */
  lemma OutputsShaped(s: string)
    ensures forall a: nat :: MatchAt(s, OutputAt, a) ==>
              LineStart(s, a) && s[OutputAt(s, a).value - 1] == '}'
              && Contains(s[a..OutputAt(s, a).value], "output")
  {
    forall a: nat | MatchAt(s, OutputAt, a)
      ensures LineStart(s, a) && s[OutputAt(s, a).value - 1] == '}'
              && Contains(s[a..OutputAt(s, a).value], "output")
    {
      OutputShape(s, a, OutputAt(s, a).value);
    }
  }

  /** When every match of `m` starts a line, names `w` and ends with a
    * closing brace, so does every piece `FindAll` returns. */
  lemma PieceShaped(s: string, m: Matcher, i: nat, w: string)
    requires i < |FindAll(s, m)|
    requires forall a: nat :: MatchAt(s, m, a) ==>
               LineStart(s, a) && s[m(s, a).value - 1] == '}' && Contains(s[a..m(s, a).value], w)
    ensures var spans, piece := Scan(s, m, 0), FindAll(s, m)[i];
            LineStart(s, spans[i].0) && piece != [] && piece[|piece| - 1] == '}' && Contains(piece, w)
  {
    PieceOfSpan(s, m, i);
  }

  /** Each piece `FindAll` returns is the non-empty text of a match. */
  lemma PieceOfSpan(s: string, m: Matcher, i: nat)
    requires i < |FindAll(s, m)|
    ensures var spans, piece := Scan(s, m, 0), FindAll(s, m)[i];
            i < |spans| && MatchAt(s, m, spans[i].0) && spans[i].1 == m(s, spans[i].0).value
            && piece == s[spans[i].0..spans[i].1] && piece != [] && piece[|piece| - 1] == s[spans[i].1 - 1]
  {
    PieceAt(s, m, i);
    SpanEnd(s, m, i);
  }

  /** Every example output section of the generated configuration lies in
    * a stretch that is cut out. */
  lemma ExampleOutputsRemoved(newConfig: string, p: nat)
    requires MatchAt(newConfig, ExampleOutputAt, p)
    ensures Covered(Scan(newConfig, ExampleOutputAt, 0), p)
  {
    ScanCovers(newConfig, ExampleOutputAt, 0, p);
  }

  /** The insertion point as the source computes it: the end of the first
    * "}" line of the generated configuration before its example section
    * is removed, used as a position in the text after the removal. */
  function AsWrittenOutputInsertPos(newConfig: string): (r: Option<nat>)
    ensures r.Some? ==> 1 <= r.value <= |newConfig| && newConfig[r.value - 1] == '}'
  {
    var close := FindFirst(newConfig, CloseLineAt);
    if close.None? then None
    else
      assert MatchAt(newConfig, CloseLineAt, close.value.0);
      Some(close.value.1)
  }

  /** An example section that closes before the first "}" line of its own
    * shifts the text: the source's insertion point then lies past the end
    * of the text it slices, which makes the slice panic, where the lookup
    * in the text after the removal finds the brace of the input section. */
  lemma AsWrittenInsertPosOverruns(newConfig: string, existingConfig: string)
    requires newConfig == "/-output \"eDP-2\" {\n}\ninput {\n}"
    requires existingConfig == "output \"A\" {}"
    ensures FindAll(existingConfig, OutputAt) != []
    ensures AsWrittenOutputInsertPos(newConfig) == Some(20)
    ensures WithoutExampleOutput(newConfig) == "\ninput {\n}"
    ensures |WithoutExampleOutput(newConfig)| < 20
    ensures FindFirst(WithoutExampleOutput(newConfig), CloseLineAt) == Some((9, 10))
  {
    SampleOutputFound(existingConfig);
    SampleExampleRemoved(newConfig);
    SampleCloseBeforeRemoval(newConfig);
    SampleCloseAfterRemoval(WithoutExampleOutput(newConfig));
  }

  lemma SampleOutputFound(x: string)
    requires x == "output \"A\" {}"
    ensures FindAll(x, OutputAt) != []
  {
    assert x[0] == 'o' && x[0..2][0] == 'o';
    assert !LiteralAt(x, 0, "/-");
    assert KeywordPos(x, 0) == 0;
    assert x[0..6] == "output";
    SkipSpaceAt(x, 6, 7);
    assert SkipTo(x, 8, '"') == 9;
    SkipSpaceAt(x, 10, 11);
    assert BlockEnd(x, 12, false) == Some(13);
    assert OutputAt(x, 0) == Some(13);
    assert MatchAt(x, OutputAt, 0);
  }

  lemma SampleExampleRemoved(n: string)
    requires n == "/-output \"eDP-2\" {\n}\ninput {\n}"
    ensures WithoutExampleOutput(n) == "\ninput {\n}"
  {
    assert n[0..18] == ExampleOutputHead;
    assert BlockEnd(n, 19, false) == Some(20);
    assert BlockEnd(n, 18, false) == Some(20);
    assert MatchAt(n, ExampleOutputAt, 0);
    forall k | 20 <= k < |n| ensures !MatchAt(n, ExampleOutputAt, k) {
      if LineStart(n, k) {
        assert k == 21 || k == 29;
        assert n[k] != '/';
      }
    }
    ScanNone(n, ExampleOutputAt, 20);
    ScanFrom(n, ExampleOutputAt, 0, 0);
    assert Scan(n, ExampleOutputAt, 0) == [(0, 20)];
    assert Gaps(n, [(0, 20)], 0) == n[0..0] + Gaps(n, [], 20);
  }

  lemma SampleCloseBeforeRemoval(n: string)
    requires n == "/-output \"eDP-2\" {\n}\ninput {\n}"
    ensures AsWrittenOutputInsertPos(n) == Some(20)
  {
    forall k | 0 <= k < 19 ensures !MatchAt(n, CloseLineAt, k) {
      if LineStart(n, k) {
        assert k == 0;
      }
    }
    assert MatchAt(n, CloseLineAt, 19);
    ScanFrom(n, CloseLineAt, 0, 19);
  }

  lemma SampleCloseAfterRemoval(merged: string)
    requires merged == "\ninput {\n}"
    ensures FindFirst(merged, CloseLineAt) == Some((9, 10))
  {
    forall k | 0 <= k < 9 ensures !MatchAt(merged, CloseLineAt, k) {
      if LineStart(merged, k) {
        assert k == 0 || k == 1;
      }
    }
    assert MatchAt(merged, CloseLineAt, 9);
    ScanFrom(merged, CloseLineAt, 0, 9);
  }
}
