/** The Hyprland keybind reader of the DMS backend: it reads `bind` lines
  * (and `#/#` lines, binds kept in comments) into key bindings, gives a
  * binding without a comment a generated description, and groups the
  * bindings into the sections that `#!`, `##!`, ... headings open. */
module HyprlandKeybinds {
  import opened Common
  import opened Strs

  /** One bind line, read. */
  datatype KeyBinding = KeyBinding(mods: seq<string>, key: string, dispatcher: string, params: string, comment: string)

  /** A section: its sub-sections, its own bindings, and its heading. */
  datatype Section = Section(children: seq<Section>, keybinds: seq<KeyBinding>, name: string)

  // ---------------------------------------------------------------------
  // Generated comments

  /** The dispatchers `autogenerateComment` describes. */
  const KnownDispatchers: set<string> := {
    "resizewindow", "movewindow", "pin", "splitratio", "togglefloating",
    "resizeactive", "killactive", "fullscreen", "fakefullscreen", "workspace",
    "movefocus", "swapwindow", "movetoworkspace", "movetoworkspacesilent",
    "togglespecialworkspace", "exec"}

  /** The direction a one-letter parameter names, if any. */
  function Direction(params: string): Option<string>
  {
    match params
    case "l" => Some("left")
    case "r" => Some("right")
    case "u" => Some("up")
    case "d" => Some("down")
    case _ => None
  }

  /** The direction word, "null" for an unknown parameter. */
  function DirectionWord(params: string): string
  {
    if Direction(params).Some? then Direction(params).value else "null"
  }

  /** The fullscreen mode a parameter names, if any. */
  function FullscreenMode(params: string): Option<string>
  {
    match params
    case "0" => Some("fullscreen")
    case "1" => Some("maximization")
    case "2" => Some("fullscreen on Hyprland's side")
    case _ => None
  }

  /** `autogenerateComment`: a description of what a dispatcher does. */
  function AutogenerateComment(dispatcher: string, params: string): (r: string)
  {
    match dispatcher
    case "resizewindow" => "Resize window"
    case "movewindow" =>
      if params == "" then "Move window"
      else "Window: move in " + DirectionWord(params) + " direction"
    case "pin" => "Window: pin (show on all workspaces)"
    case "splitratio" => "Window split ratio " + params
    case "togglefloating" => "Float/unfloat window"
    case "resizeactive" => "Resize window by " + params
    case "killactive" => "Close window"
    case "fullscreen" =>
      "Toggle " + (if FullscreenMode(params).Some? then FullscreenMode(params).value else "null")
    case "fakefullscreen" => "Toggle fake fullscreen"
    case "workspace" =>
      if params == "+1" then "Workspace: focus right"
      else if params == "-1" then "Workspace: focus left"
      else "Focus workspace " + params
    case "movefocus" => "Window: move focus " + DirectionWord(params)
    case "swapwindow" => "Window: swap in " + DirectionWord(params) + " direction"
    case "movetoworkspace" =>
      if params == "+1" then "Window: move to right workspace (non-silent)"
      else if params == "-1" then "Window: move to left workspace (non-silent)"
      else "Window: move to workspace " + params + " (non-silent)"
    case "movetoworkspacesilent" =>
      if params == "+1" then "Window: move to right workspace"
      else if params == "-1" then "Window: move to right workspace"
      else "Window: move to workspace " + params
    case "togglespecialworkspace" => "Workspace: toggle special"
    case "exec" => "Execute: " + params
    case _ => ""
  }

  /** Exactly the known dispatchers are described. */
  lemma CommentIffKnown(dispatcher: string, params: string)
    ensures AutogenerateComment(dispatcher, params) == "" <==> dispatcher !in KnownDispatchers
  {
  }

  /** The three directional dispatchers name the direction their
    * parameter letter stands for, and "null" for any other parameter. */
  lemma DirectionalComments(params: string)
    ensures Direction(params).Some? <==> params in {"l", "r", "u", "d"}
    ensures AutogenerateComment("movefocus", params) == "Window: move focus " + DirectionWord(params)
    ensures params != "" ==>
              AutogenerateComment("movewindow", params) == "Window: move in " + DirectionWord(params) + " direction"
    ensures AutogenerateComment("swapwindow", params) == "Window: swap in " + DirectionWord(params) + " direction"
    ensures params !in {"l", "r", "u", "d"} ==> DirectionWord(params) == "null"
  {
  }

  /** Stepping one workspace back is described as "left" by `workspace`
    * and `movetoworkspace`, while `movetoworkspacesilent` describes both
    * steps as moving right, the text its table test pins. */
  lemma WorkspaceStepComments()
    ensures AutogenerateComment("workspace", "-1") == "Workspace: focus left"
    ensures AutogenerateComment("workspace", "+1") == "Workspace: focus right"
    ensures AutogenerateComment("movetoworkspace", "-1") == "Window: move to left workspace (non-silent)"
    ensures AutogenerateComment("movetoworkspacesilent", "-1") == AutogenerateComment("movetoworkspacesilent", "+1")
    ensures AutogenerateComment("movetoworkspacesilent", "-1") == "Window: move to right workspace"
  {
  }

  // ---------------------------------------------------------------------
  // Modifiers

  /** The modifier separators. */
  predicate IsModSep(c: char)
  {
    c == '+' || c == ' '
  }

  /** The position just after the last separator of `s`, or 0. */
  function SegmentStart(s: string): (r: nat)
    ensures r <= |s|
  {
    if |s| == 0 then 0
    else if IsModSep(s[|s| - 1]) then |s|
    else SegmentStart(s[..|s| - 1])
  }

  /** The segments of `s` closed by a separator and longer than one
    * character, in order. */
  function Kept(s: string): (r: seq<string>)
  {
    if |s| == 0 then []
    else
      var t := s[..|s| - 1];
      var start := SegmentStart(t);
      if IsModSep(s[|s| - 1]) && |t| - start > 1 then Kept(t) + [t[start..]] else Kept(t)
  }

  /** The modifier list of a trimmed modifier text: none for "", else the
    * segments of the text with a separator added at its end. */
  function ModList(mods: string): seq<string>
  {
    if mods == "" then [] else Kept(mods + "+")
  }

  /** The modifier loop of `getKeybindAtLine`. */
  method SplitMods(mods: string) returns (modList: seq<string>)
    ensures modList == ModList(mods)
  {
    modList := [];
    if mods != "" {
      var modstring := mods + "+";
      var p := 0;
      var index := 0;
      while index < |modstring|
        invariant 0 <= index <= |modstring|
        invariant p == SegmentStart(modstring[..index])
        invariant modList == Kept(modstring[..index])
      {
        var c := modstring[index];
        assert modstring[..index + 1][..index] == modstring[..index];
        var isModSep := false;
        if c == '+' || c == ' ' {
          isModSep := true;
        }
        if isModSep {
          if index - p > 1 {
            assert modstring[..index][p..] == modstring[p..index];
            modList := modList + [modstring[p..index]];
          }
          p := index + 1;
        }
        index := index + 1;
      }
      assert modstring[..index] == modstring;
    }
  }

  /** Segments separated by the given separators: `Glued(ms, seps)` is
    * `ms[0] + [seps[0]] + ms[1] + ...`. */
  function Glued(ms: seq<string>, seps: seq<char>): string
    requires |ms| == |seps| + 1
  {
    if |seps| == 0 then ms[0]
    else Glued(ms[..|ms| - 1], seps[..|seps| - 1]) + [seps[|seps| - 1]] + ms[|ms| - 1]
  }

  /** The segments longer than one character. */
  function KeepLong(ms: seq<string>): (r: seq<string>)
    ensures forall k :: 0 <= k < |r| ==> |r[k]| > 1
  {
    if |ms| == 0 then []
    else KeepLong(ms[..|ms| - 1]) + (if |ms[|ms| - 1]| > 1 then [ms[|ms| - 1]] else [])
  }

  predicate SepFree(m: string)
  {
    forall k :: 0 <= k < |m| ==> !IsModSep(m[k])
  }

  /** Appending separator-free text keeps the closed segments and the
    * start of the open one. */
  lemma {:induction false} KeptSepFree(s: string, m: string)
    requires SepFree(m)
    ensures Kept(s + m) == Kept(s)
    ensures SegmentStart(s + m) == SegmentStart(s)
    decreases |m|
  {
    if |m| == 0 {
      assert s + m == s;
    } else {
      var m' := m[..|m| - 1];
      assert (s + m)[..|s + m| - 1] == s + m';
      assert !IsModSep((s + m)[|s + m| - 1]);
      KeptSepFree(s, m');
    }
  }

  /** A separator closes the open segment, kept if it is long. */
  lemma KeptClose(s: string, m: string, c: char)
    requires SepFree(m) && IsModSep(c) && (s == [] || IsModSep(s[|s| - 1]))
    ensures Kept(s + m + [c]) == Kept(s) + (if |m| > 1 then [m] else [])
    ensures SegmentStart(s + m + [c]) == |s + m + [c]|
  {
    KeptSepFree(s, m);
    var t := s + m;
    assert (s + m + [c])[..|s + m + [c]| - 1] == t;
    assert SegmentStart(s) == |s|;
    assert t[|s|..] == m;
  }

  /** The modifier text of any segments and separators gives back exactly
    * its segments longer than one character, in order. */
  lemma {:induction false} ModsOfGlued(ms: seq<string>, seps: seq<char>)
    requires |ms| == |seps| + 1
    requires forall k :: 0 <= k < |ms| ==> SepFree(ms[k])
    requires forall k :: 0 <= k < |seps| ==> IsModSep(seps[k])
    ensures Kept(Glued(ms, seps) + "+") == KeepLong(ms)
    decreases |seps|
  {
    if |seps| == 0 {
      KeptClose([], ms[0], '+');
      assert [] + ms[0] + ['+'] == ms[0] + "+";
      assert KeepLong(ms) == KeepLong(ms[..0]) + (if |ms[0]| > 1 then [ms[0]] else []);
    } else {
      var init, last := ms[..|ms| - 1], ms[|ms| - 1];
      var prefix := Glued(init, seps[..|seps| - 1]);
      var c := seps[|seps| - 1];
      ModsOfGlued(init, seps[..|seps| - 1]);
      assert init == ms[..|ms| - 1][..|ms| - 1 - 1 + 1];
      KeptClose(prefix + [c], last, '+');
      assert prefix + [c] + last + ['+'] == Glued(ms, seps) + "+";
      KeptSepSwap(prefix, c, '+');
      assert Kept(prefix + [c]) == KeepLong(init);
    }
  }

  /** Which separator closes a segment does not matter. */
  lemma KeptSepSwap(t: string, c: char, d: char)
    requires IsModSep(c) && IsModSep(d)
    ensures Kept(t + [c]) == Kept(t + [d])
  {
    assert (t + [c])[..|t|] == t;
    assert (t + [d])[..|t|] == t;
  }

  /** Every modifier read is longer than one character and holds no
    * separator. */
  lemma {:induction false} KeptShape(s: string)
    ensures forall k :: 0 <= k < |Kept(s)| ==> |Kept(s)[k]| > 1 && SepFree(Kept(s)[k])
  {
    if |s| > 0 {
      var t := s[..|s| - 1];
      KeptShape(t);
      StartSepFree(t);
    }
  }

  /** The open segment holds no separator. */
  lemma {:induction false} StartSepFree(s: string)
    ensures SepFree(s[SegmentStart(s)..])
  {
    if |s| > 0 && !IsModSep(s[|s| - 1]) {
      var t := s[..|s| - 1];
      StartSepFree(t);
      assert s[SegmentStart(s)..] == t[SegmentStart(t)..] + [s[|s| - 1]];
    }
  }

  /** The modifier list of any modifier text is its segments longer than
    * one character: separators, repeated or not, and one-letter segments
    * leave nothing behind. */
  lemma ModListOfGlued(ms: seq<string>, seps: seq<char>)
    requires |ms| == |seps| + 1
    requires forall k :: 0 <= k < |ms| ==> SepFree(ms[k])
    requires forall k :: 0 <= k < |seps| ==> IsModSep(seps[k])
    ensures ModList(Glued(ms, seps)) == KeepLong(ms)
  {
    if Glued(ms, seps) == "" {
      if |seps| > 0 {
        GluedLength(ms, seps);
      }
      assert ms == ms[..0] + [ms[0]] && ms[0] == "";
    } else {
      ModsOfGlued(ms, seps);
    }
  }

  /** Glued text is at least as long as its separators. */
  lemma {:induction false} GluedLength(ms: seq<string>, seps: seq<char>)
    requires |ms| == |seps| + 1
    ensures |Glued(ms, seps)| >= |seps|
    decreases |seps|
  {
    if |seps| > 0 {
      GluedLength(ms[..|ms| - 1], seps[..|seps| - 1]);
    }
  }

  // ---------------------------------------------------------------------
  // Bind lines

  /** The comment prefix that hides a binding. */
  const HideComment := "[hidden]"

  /** Adds a binding, if one was read. */
  function AddBind(s: Section, kb: Option<KeyBinding>): (r: Section)
  {
    if kb.Some? then s.(keybinds := s.keybinds + [kb.value]) else s
  }

  /** `getKeybindAtLine`, on the line's text: the text after the first
    * '=', cut at its first '#' (the rest, trimmed, is the comment), split
    * at its first four commas. Fewer than three fields, or a comment
    * starting with "[hidden]", give no binding. */
  function KeybindAt(line: string): (r: Option<KeyBinding>)
  {
    var parts := SplitN(line, "=", 2);
    if |parts| < 2 then None else FromRest(parts[1])
  }

  /** The binding of the text after '=': its comment is the trimmed text
    * after its first '#'. */
  function FromRest(rest: string): (r: Option<KeyBinding>)
  {
    var keyParts := SplitN(rest, "#", 2);
    FromKeys(keyParts[0], if |keyParts| > 1 then TrimSpace(keyParts[1]) else "")
  }

  /** The binding of a keys text and a trimmed comment. */
  function FromKeys(keys: string, comment: string): (r: Option<KeyBinding>)
  {
    FromFields(SplitN(keys, ",", 5), comment)
  }

  /** The binding of the comma fields of a keys text and a trimmed
    * comment. */
  function FromFields(keyFields: seq<string>, comment: string): (r: Option<KeyBinding>)
  {
    if |keyFields| < 3 then None
    else
      var dispatcher := TrimSpace(keyFields[2]);
      var params := if |keyFields| > 3 then TrimSpace(Join(keyFields[3..], ",")) else "";
      if comment != "" && HasPrefix(comment, HideComment) then None
      else
        Some(KeyBinding(ModList(TrimSpace(keyFields[0])), TrimSpace(keyFields[1]), dispatcher, params,
                        if comment != "" then comment else AutogenerateComment(dispatcher, params)))
  }

  /** A bind line as a configuration writes it: a head, '=', the fields
    * joined by commas, and optionally '#' and a comment. */
  function BindLine(head: string, fields: seq<string>, comment: Option<string>): string
  {
    head + "=" + (Join(fields, ",") + (if comment.Some? then "#" + comment.value else ""))
  }

  /** The binding a line with those parts carries: the first three fields
    * trimmed, everything after the third comma (commas included) trimmed
    * as the parameters, the trimmed comment or else the generated one; a
    * comment starting with "[hidden]" hides it. */
  function Expected(fields: seq<string>, comment: Option<string>): Option<KeyBinding>
    requires |fields| >= 3
  {
    var dispatcher := TrimSpace(fields[2]);
    var params := if |fields| > 3 then TrimSpace(Join(fields[3..], ",")) else "";
    var text := if comment.Some? then TrimSpace(comment.value) else "";
    if text != "" && HasPrefix(text, HideComment) then None
    else
      Some(KeyBinding(ModList(TrimSpace(fields[0])), TrimSpace(fields[1]), dispatcher, params,
                      if text != "" then text else AutogenerateComment(dispatcher, params)))
  }

  /** Where a one-character string first occurs in a text that has it
    * only after a part without it. */
  lemma IndexAfter(a: string, c: char, b: string)
    requires c !in a
    ensures Index(a + [c] + b, [c]) == |a|
  {
    var s := a + [c] + b;
    assert s[|a|..|a| + 1] == [c];
    assert OccursAt(s, [c], |a|);
    forall k | 0 <= k < |a| ensures !OccursAt(s, [c], k) {
      assert s[k..k + 1] == [a[k]];
    }
  }

  /** A one-character string does not occur in a text without it. */
  lemma IndexAbsent(s: string, c: char)
    requires c !in s
    ensures Index(s, [c]) == -1
  {
    forall k ensures !OccursAt(s, [c], k) {
      if 0 <= k && k + 1 <= |s| {
        assert s[k..k + 1] == [s[k]];
      }
    }
  }

  /** Splitting a join whose first part lacks the separator peels that
    * part off. */
  lemma SplitNJoinHead(fields: seq<string>, c: char, n: nat)
    requires |fields| >= 2 && n >= 2 && c !in fields[0]
    ensures SplitN(Join(fields, [c]), [c], n) == [fields[0]] + SplitN(Join(fields[1..], [c]), [c], n - 1)
  {
    var rest := Join(fields[1..], [c]);
    assert Join(fields, [c]) == fields[0] + [c] + rest;
    IndexAfter(fields[0], c, rest);
    var s := fields[0] + [c] + rest;
    assert s[..|fields[0]|] == fields[0];
    assert s[|fields[0]| + 1..] == rest;
  }

  /** Splitting at most `n` times a join of fewer than `n` parts that lack
    * the separator gives the parts back. */
  lemma {:induction false} SplitNJoinFew(fields: seq<string>, c: char, n: nat)
    requires 1 <= |fields| <= n && forall k :: 0 <= k < |fields| ==> c !in fields[k]
    ensures SplitN(Join(fields, [c]), [c], n) == fields
    decreases |fields|
  {
    if |fields| == 1 {
      IndexAbsent(fields[0], c);
      assert Join(fields, [c]) == fields[0];
      assert SplitN(fields[0], [c], n) == [fields[0]];
    } else {
      var rest := fields[1..];
      SplitNJoinHead(fields, c, n);
      SplitNJoinFew(rest, c, n - 1);
      assert fields == [fields[0]] + rest;
    }
  }

  /** The keys part of a bind line splits into its first three fields and
    * the rest of the text. */
  lemma SplitKeyFields(fields: seq<string>)
    requires |fields| >= 3 && forall k :: 0 <= k < 3 ==> ',' !in fields[k]
    ensures var kf := SplitN(Join(fields, ","), ",", 5);
            |kf| >= 3 && kf[..3] == fields[..3]
            && (|kf| > 3 <==> |fields| > 3)
            && (|fields| > 3 ==> Join(kf[3..], ",") == Join(fields[3..], ","))
  {
    if |fields| == 3 {
      SplitNJoinFew(fields, ',', 5);
    } else {
      var tail := SplitN(Join(fields[3..], ","), ",", 2);
      SplitThreeHeads(fields);
      SplitNSpec(Join(fields[3..], ","), ",", 2);
      HeadsAndTail(fields[..3], tail);
    }
  }

  /** Three heads and a non-empty tail: the heads come first and the
    * tail follows. */
  lemma HeadsAndTail(heads: seq<string>, tail: seq<string>)
    requires |heads| == 3 && |tail| >= 1
    ensures var kf := heads + tail; |kf| > 3 && kf[..3] == heads && kf[3..] == tail
  {
  }

  /** Splitting at most five times a join of more than three fields, the
    * first three without the separator, peels those three off. */
  lemma SplitThreeHeads(fields: seq<string>)
    requires |fields| > 3 && forall k :: 0 <= k < 3 ==> ',' !in fields[k]
    ensures SplitN(Join(fields, ","), ",", 5) == fields[..3] + SplitN(Join(fields[3..], ","), ",", 2)
  {
    var f1 := fields[1..];
    var t := SplitN(Join(fields[3..], ","), ",", 2);
    SplitNJoinHead(fields, ',', 5);
    assert f1[2..] == fields[3..];
    SplitTwoHeads(f1);
    ThreeHeads(fields[0], f1[0], f1[1], t);
    assert fields[..3] == [fields[0], f1[0], f1[1]];
  }

  /** The same, two fields deep and splitting at most four times. */
  lemma SplitTwoHeads(fields: seq<string>)
    requires |fields| > 2 && ',' !in fields[0] && ',' !in fields[1]
    ensures SplitN(Join(fields, ","), ",", 4) == [fields[0]] + ([fields[1]] + SplitN(Join(fields[2..], ","), ",", 2))
  {
    var f1 := fields[1..];
    SplitNJoinHead(fields, ',', 4);
    assert f1[0] == fields[1] && f1[1..] == fields[2..];
    SplitNJoinHead(f1, ',', 3);
  }

  lemma ThreeHeads<T>(a: T, b: T, c: T, t: seq<T>)
    ensures [a] + ([b] + ([c] + t)) == [a, b, c] + t
  {
  }

  /** Cutting a text at the first occurrence of a character it has only
    * after a part without it. */
  lemma CutAt(a: string, c: char, b: string)
    requires c !in a
    ensures SplitN(a + [c] + b, [c], 2) == [a, b]
  {
    var s := a + [c] + b;
    IndexAfter(a, c, b);
    assert s[..|a|] == a;
    assert s[|a| + 1..] == b;
  }

  /** Cutting a text without the character leaves it whole. */
  lemma CutAbsent(a: string, c: char)
    requires c !in a
    ensures SplitN(a, [c], 2) == [a]
  {
    IndexAbsent(a, c);
  }

  /** A bind line's text after '=' is its keys and its comment. */
  lemma BindLineKeys(head: string, fields: seq<string>, comment: Option<string>)
    requires '=' !in head
    requires forall k :: 0 <= k < |fields| ==> '#' !in fields[k]
    ensures KeybindAt(BindLine(head, fields, comment))
            == FromKeys(Join(fields, ","), if comment.Some? then TrimSpace(comment.value) else "")
  {
    var keys := Join(fields, ",");
    var tail := if comment.Some? then "#" + comment.value else "";
    CutAt(head, '=', keys + tail);
    JoinLacksChar(fields, ",", '#');
    RestKeys(keys, comment);
  }

  /** The text after '=' splits into keys without '#' and the comment. */
  lemma RestKeys(keys: string, comment: Option<string>)
    requires '#' !in keys
    ensures FromRest(keys + (if comment.Some? then "#" + comment.value else ""))
            == FromKeys(keys, if comment.Some? then TrimSpace(comment.value) else "")
  {
    if comment.Some? {
      assert keys + ("#" + comment.value) == keys + ['#'] + comment.value;
      CutAt(keys, '#', comment.value);
    } else {
      assert keys + "" == keys;
      CutAbsent(keys, '#');
    }
  }

  /** Reading a bind line gives the binding of its parts: the fields
    * before the third comma must hold no comma, and no field a '#'; the
    * parameters may hold commas, and the comment anything. */
  lemma BindLineRoundTrip(head: string, fields: seq<string>, comment: Option<string>)
    requires '=' !in head && |fields| >= 3
    requires forall k :: 0 <= k < 3 ==> ',' !in fields[k]
    requires forall k :: 0 <= k < |fields| ==> '#' !in fields[k]
    ensures KeybindAt(BindLine(head, fields, comment)) == Expected(fields, comment)
  {
    BindLineKeys(head, fields, comment);
    SplitKeyFields(fields);
    FieldsExpected(SplitN(Join(fields, ","), ",", 5), fields, comment);
  }

  /** Fields that agree with the parts give the expected binding. */
  lemma FieldsExpected(kf: seq<string>, fields: seq<string>, comment: Option<string>)
    requires |fields| >= 3 && |kf| >= 3 && kf[..3] == fields[..3]
    requires |kf| > 3 <==> |fields| > 3
    requires |fields| > 3 ==> Join(kf[3..], ",") == Join(fields[3..], ",")
    ensures FromFields(kf, if comment.Some? then TrimSpace(comment.value) else "") == Expected(fields, comment)
  {
    assert kf[0] == fields[0] && kf[1] == fields[1] && kf[2] == fields[2];
  }

  /** A line without '=' is no binding. */
  lemma NoEqualsNoBind(line: string)
    requires '=' !in line
    ensures KeybindAt(line) == None
  {
    CutAbsent(line, '=');
  }

  /** A line whose keys part has fewer than three comma fields is no
    * binding. */
  lemma FewFieldsNoBind(head: string, fields: seq<string>, comment: Option<string>)
    requires '=' !in head && 1 <= |fields| < 3
    requires forall k :: 0 <= k < |fields| ==> ',' !in fields[k] && '#' !in fields[k]
    ensures KeybindAt(BindLine(head, fields, comment)) == None
  {
    BindLineKeys(head, fields, comment);
    SplitNJoinFew(fields, ',', 5);
  }

  /** A binding whose comment starts with "[hidden]" is not listed. */
  lemma HiddenNoBind(head: string, fields: seq<string>, comment: string)
    requires '=' !in head && |fields| >= 3
    requires forall k :: 0 <= k < 3 ==> ',' !in fields[k]
    requires forall k :: 0 <= k < |fields| ==> '#' !in fields[k]
    requires HasPrefix(TrimSpace(comment), HideComment)
    ensures KeybindAt(BindLine(head, fields, Some(comment))) == None
  {
    BindLineRoundTrip(head, fields, Some(comment));
  }

  /** A binding without a comment is described by its dispatcher and
    * parameters. */
  lemma UncommentedDescribed(head: string, fields: seq<string>)
    requires '=' !in head && |fields| >= 3
    requires forall k :: 0 <= k < 3 ==> ',' !in fields[k]
    requires forall k :: 0 <= k < |fields| ==> '#' !in fields[k]
    ensures var b := KeybindAt(BindLine(head, fields, None));
            b.Some? && b.value.comment == AutogenerateComment(b.value.dispatcher, b.value.params)
  {
    BindLineRoundTrip(head, fields, None);
  }

  // ---------------------------------------------------------------------
  // Sections

  /** The number of '#' a line starts with. */
  function LeadingHashes(line: string): (r: nat)
    ensures r <= |line| && forall k :: 0 <= k < r ==> line[k] == '#'
    ensures r < |line| ==> line[r] != '#'
  {
    if |line| > 0 && line[0] == '#' then 1 + LeadingHashes(line[1..]) else 0
  }

  /** A heading: one or more '#' at the start of the line and then '!'
    * (a match of `#+!` at column 0). */
  predicate IsHeading(line: string)
  {
    var n := LeadingHashes(line);
    1 <= n < |line| && line[n] == '!'
  }

  /** The depth of a heading, as the parser finds it: the position of
    * its first '!', which is its number of '#'. */
  lemma HeadingDepth(line: string)
    requires IsHeading(line)
    ensures IndexChar(line, '!') == LeadingHashes(line) >= 1
  {
    var n := LeadingHashes(line);
    assert '!' !in line[..n] by {
      forall k | 0 <= k < n ensures line[..n][k] != '!' {
        assert line[k] == '#';
      }
    }
  }

  /** A line the parser reads a binding from: a `#/#` line, or a line
    * whose trimmed text starts with "bind". */
  predicate IsBindCandidate(line: string)
  {
    HasPrefix(line, "#/#") || !(line == "" || !HasPrefix(TrimSpace(line), "bind"))
  }

  /** What the parser reads from a line that is no heading: the binding
    * of a bind candidate (if it has one), nothing for any other line. */
  function ReadOf(line: string): Option<KeyBinding>
  {
    if IsBindCandidate(line) then KeybindAt(line) else None
  }

  /** The readings of all lines, in order. */
  function Reads(lines: seq<string>): (r: seq<Option<KeyBinding>>)
    ensures |r| == |lines|
  {
    if |lines| == 0 then [] else Reads(lines[..|lines| - 1]) + [ReadOf(lines[|lines| - 1])]
  }

  /** Each reading is that of its own line. */
  lemma {:induction false} ReadsAt(lines: seq<string>, k: nat)
    requires k < |lines|
    ensures Reads(lines)[k] == ReadOf(lines[k])
  {
    if k < |lines| - 1 {
      var init := lines[..|lines| - 1];
      ReadsAt(init, k);
      assert init[k] == lines[k];
    }
  }

  /** `getBindsRecursive` from line `pos`, inside a section whose heading
    * has depth `scope`, with `readings` those of the lines: the
    * section as it stands when the parser leaves it, and the parser's
    * position then. A heading deeper than `scope` opens a child section
    * that runs to the next heading no deeper than its own; a heading no
    * deeper than `scope` ends this section, leaving the position just
    * before it so the caller reads it again; other lines add their
    * binding, if any. The position is shared: a child that reaches the
    * end leaves it there and each enclosing section then steps once
    * more, so a walk from inside the lines can end past their end, by at
    * most the number of lines it read. */
  function Walk(lines: seq<string>, readings: seq<Option<KeyBinding>>, pos: nat, scope: int, current: Section): (r: (Section, int))
    requires |readings| == |lines|
    decreases |lines| - pos
    ensures r.1 >= pos - 1
    ensures pos >= |lines| ==> r == (current, pos)
    ensures pos < |lines| ==> r.1 <= 2 * |lines| - pos
  {
    if pos >= |lines| then (current, pos)
    else
      var line := lines[pos];
      if IsHeading(line) then
        var headingScope := IndexChar(line, '!');
        if headingScope <= scope then (current, pos - 1)
        else
          var child := Section([], [], TrimSpace(line[headingScope + 1..]));
          var (result, q) := Walk(lines, readings, pos + 1, headingScope, child);
          Walk(lines, readings, q + 1, scope, current.(children := current.children + [result]))
      else
        Walk(lines, readings, pos + 1, scope, AddBind(current, readings[pos]))
  }

  /** `getBindsRecursive` from line `pos` of `lines`. */
  function BindsFrom(lines: seq<string>, pos: nat, scope: int, current: Section): (Section, int)
  {
    Walk(lines, Reads(lines), pos, scope, current)
  }

  /** A configuration that is one heading ends with the parser's position
    * one past the end: the child section stops at the end and the root
    * steps over it once more. */
  lemma EndOvershoot(lines: seq<string>, current: Section)
    requires |lines| == 1 && IsHeading(lines[0]) && IndexChar(lines[0], '!') > 0
    ensures BindsFrom(lines, 0, 0, current).1 == |lines| + 1
  {
  }

  /** A heading no deeper than the section ends it. */
  lemma CloseStep(lines: seq<string>, pos: nat, scope: int, current: Section)
    requires pos < |lines| && IsHeading(lines[pos]) && IndexChar(lines[pos], '!') <= scope
    ensures BindsFrom(lines, pos, scope, current) == (current, pos - 1)
  {
  }

  /** One line that is no heading. */
  lemma LineStep(lines: seq<string>, pos: nat, scope: int, current: Section)
    requires pos < |lines| && !IsHeading(lines[pos])
    ensures BindsFrom(lines, pos, scope, current)
            == BindsFrom(lines, pos + 1, scope,
                         if IsBindCandidate(lines[pos]) then AddBind(current, KeybindAt(lines[pos])) else current)
  {
    ReadsAt(lines, pos);
  }

  /** A heading deeper than the section opens a child section; the
    * parser goes on after the child with the child added. */
  lemma OpenStep(lines: seq<string>, pos: nat, scope: int, current: Section)
    requires pos < |lines| && IsHeading(lines[pos]) && IndexChar(lines[pos], '!') > scope
    ensures var line := lines[pos];
            var h := IndexChar(line, '!');
            var sub := BindsFrom(lines, pos + 1, h, Section([], [], TrimSpace(line[h + 1..])));
            sub.1 + 1 >= 0
            && BindsFrom(lines, pos, scope, current)
               == BindsFrom(lines, sub.1 + 1, scope, current.(children := current.children + [sub.0]))
  {
  }

  /** Position `q` is where a section of depth `scope` may stop: at the
    * end of the lines, or just before a heading no deeper than `scope`. */
  predicate StopsAt(lines: seq<string>, q: int, scope: int)
  {
    q >= |lines| || (0 <= q + 1 < |lines| && IsHeading(lines[q + 1])
                     && IndexChar(lines[q + 1], '!') <= scope)
  }

  /** A section stops only at the end of the lines or just before a
    * heading no deeper than its own depth. */
  lemma {:induction false} BindsFromStops(lines: seq<string>, pos: nat, scope: int, current: Section)
    decreases |lines| - pos
    ensures StopsAt(lines, BindsFrom(lines, pos, scope, current).1, scope)
  {
    if pos < |lines| {
      var line := lines[pos];
      if !IsHeading(line) {
        LineStep(lines, pos, scope, current);
        BindsFromStops(lines, pos + 1, scope,
                       if IsBindCandidate(line) then AddBind(current, KeybindAt(line)) else current);
      } else if IndexChar(line, '!') > scope {
        var h := IndexChar(line, '!');
        var sub := BindsFrom(lines, pos + 1, h, Section([], [], TrimSpace(line[h + 1..])));
        OpenAfter(lines, pos, scope, current, sub.0, sub.1 + 1);
        BindsFromStops(lines, sub.1 + 1, scope, current.(children := current.children + [sub.0]));
      } else {
        CloseStep(lines, pos, scope, current);
      }
    }
  }

  /** `OpenStep` for a child already parsed into `result`, the parser
    * going on at `next`, just after where the child stopped. */
  lemma OpenAfter(lines: seq<string>, pos: nat, scope: int, current: Section, result: Section, next: int)
    requires pos < |lines| && IsHeading(lines[pos]) && IndexChar(lines[pos], '!') > scope
    requires var h := IndexChar(lines[pos], '!');
             (result, next - 1) == BindsFrom(lines, pos + 1, h, Section([], [], TrimSpace(lines[pos][h + 1..])))
    ensures pos < next
    ensures BindsFrom(lines, pos, scope, current)
            == BindsFrom(lines, next, scope, current.(children := current.children + [result]))
  {
    OpenStep(lines, pos, scope, current);
  }

  /** `ParseKeys` on the lines read: the root section, from the first
    * line at depth 0. */
  function ParseTree(lines: seq<string>): Section
  {
    BindsFrom(lines, 0, 0, Section([], [], "")).0
  }

  /** The binding one line that is no heading contributes: none, or the
    * one read from it. */
  function LineBinds(line: string): seq<KeyBinding>
  {
    if ReadOf(line).Some? then [ReadOf(line).value] else []
  }

  /** The bindings of lines that hold no heading, in order. */
  function BindsOf(lines: seq<string>): seq<KeyBinding>
  {
    if |lines| == 0 then []
    else BindsOf(lines[..|lines| - 1]) + LineBinds(lines[|lines| - 1])
  }

  /** Reading a line that is no heading adds its binding, if any. */
  lemma ReadLine(current: Section, line: string)
    ensures (if IsBindCandidate(line) then AddBind(current, KeybindAt(line)) else current)
            == current.(keybinds := current.keybinds + LineBinds(line))
  {
  }

  predicate NoHeadings(lines: seq<string>, from: nat, to: nat)
    requires from <= to <= |lines|
  {
    forall k :: from <= k < to ==> !IsHeading(lines[k])
  }

  /** Over lines without headings the parser stays in its section and
    * adds their bindings in order, skipping every other line. */
  lemma {:induction false} FlatRun(lines: seq<string>, pos: nat, e: nat, scope: int, current: Section)
    requires pos <= e <= |lines| && NoHeadings(lines, pos, e)
    ensures BindsFrom(lines, pos, scope, current)
            == BindsFrom(lines, e, scope, current.(keybinds := current.keybinds + BindsOf(lines[pos..e])))
    decreases e - pos
  {
    if pos == e {
      assert lines[pos..e] == [];
      assert current.keybinds + [] == current.keybinds;
    } else {
      var one := LineBinds(lines[pos]);
      var next := current.(keybinds := current.keybinds + one);
      LineStep(lines, pos, scope, current);
      ReadLine(current, lines[pos]);
      FlatRun(lines, pos + 1, e, scope, next);
      FrontOfRun(lines, pos, e);
      AppendAssoc(current.keybinds, one, BindsOf(lines[pos + 1..e]));
    }
  }

  /** The bindings of a run of lines are those of its first line, then
    * those of the rest. */
  lemma FrontOfRun(lines: seq<string>, pos: nat, e: nat)
    requires pos < e <= |lines|
    ensures BindsOf(lines[pos..e]) == LineBinds(lines[pos]) + BindsOf(lines[pos + 1..e])
  {
    BindsOfFront(lines[pos..e]);
    assert lines[pos..e][1..] == lines[pos + 1..e];
  }

  /** The bindings of lines, taken from the front. */
  lemma {:induction false} BindsOfFront(lines: seq<string>)
    requires |lines| > 0
    ensures BindsOf(lines) == LineBinds(lines[0]) + BindsOf(lines[1..])
  {
    if |lines| > 1 {
      var init := lines[..|lines| - 1];
      BindsOfFront(init);
      assert init[1..] == lines[1..][..|lines[1..]| - 1];
      assert init[0] == lines[0];
      AppendAssoc(LineBinds(lines[0]), BindsOf(init[1..]), LineBinds(lines[|lines| - 1]));
    } else {
      assert lines[..0] == [];
    }
  }

  /** A heading no deeper than the section's own ends the section: the
    * parser hands it back, position just before the heading. */
  lemma EndsAtHeading(lines: seq<string>, pos: nat, scope: int, current: Section)
    requires pos < |lines| && IsHeading(lines[pos]) && LeadingHashes(lines[pos]) <= scope
    ensures BindsFrom(lines, pos, scope, current) == (current, pos - 1)
  {
    HeadingDepth(lines[pos]);
  }

  /** A section without sub-sections: a heading deeper than the current
    * section, then lines without headings up to the end or to a heading
    * no deeper than it. Its section holds exactly the bindings of those
    * lines, and the parser goes on with that next heading in the outer
    * section. */
  lemma LeafSection(lines: seq<string>, pos: nat, e: nat, scope: int, current: Section)
    requires pos < e <= |lines| && IsHeading(lines[pos]) && LeadingHashes(lines[pos]) > scope
    requires NoHeadings(lines, pos + 1, e)
    requires e < |lines| ==> IsHeading(lines[e]) && LeadingHashes(lines[e]) <= LeadingHashes(lines[pos])
    ensures var line := lines[pos];
            var name := TrimSpace(line[LeadingHashes(line) + 1..]);
            var outer := current.(children := current.children + [Section([], BindsOf(lines[pos + 1..e]), name)]);
            BindsFrom(lines, pos, scope, current)
            == if e < |lines| then BindsFrom(lines, e, scope, outer) else (outer, |lines| + 1)
  {
    var line := lines[pos];
    var h := LeadingHashes(line);
    var filled := Section([], BindsOf(lines[pos + 1..e]), TrimSpace(line[h + 1..]));
    var outer := current.(children := current.children + [filled]);
    ChildOfLeaf(lines, pos, e);
    if e < |lines| {
      OpenAfter(lines, pos, scope, current, filled, e);
    } else {
      OpenAfter(lines, pos, scope, current, filled, e + 1);
      EndStep(lines, e + 1, scope, outer);
    }
  }

  /** The child section a leaf heading opens, and where it stops. */
  lemma ChildOfLeaf(lines: seq<string>, pos: nat, e: nat)
    requires pos < e <= |lines| && IsHeading(lines[pos])
    requires NoHeadings(lines, pos + 1, e)
    requires e < |lines| ==> IsHeading(lines[e]) && LeadingHashes(lines[e]) <= LeadingHashes(lines[pos])
    ensures var line := lines[pos];
            var h := IndexChar(line, '!');
            h == LeadingHashes(line)
            && BindsFrom(lines, pos + 1, h, Section([], [], TrimSpace(line[h + 1..])))
               == (Section([], BindsOf(lines[pos + 1..e]), TrimSpace(line[h + 1..])),
                   if e < |lines| then e - 1 else e)
  {
    var line := lines[pos];
    var h := LeadingHashes(line);
    assert IndexChar(line, '!') == h by {
      HeadingDepth(line);
    }
    LeafFill(lines, pos, e, h, TrimSpace(line[h + 1..]));
  }

  /** The lines after a heading, up to `e`, fill its section with their
    * bindings. */
  lemma LeafFill(lines: seq<string>, pos: nat, e: nat, h: int, name: string)
    requires pos < e <= |lines|
    requires NoHeadings(lines, pos + 1, e)
    requires e < |lines| ==> IsHeading(lines[e]) && LeadingHashes(lines[e]) <= h
    ensures BindsFrom(lines, pos + 1, h, Section([], [], name))
            == (Section([], BindsOf(lines[pos + 1..e]), name), if e < |lines| then e - 1 else e)
  {
    var child := Section([], [], name);
    var filled := Section([], BindsOf(lines[pos + 1..e]), name);
    assert BindsFrom(lines, pos + 1, h, child) == BindsFrom(lines, e, h, filled) by {
      FlatRun(lines, pos + 1, e, h, child);
      assert child.(keybinds := child.keybinds + BindsOf(lines[pos + 1..e])) == filled;
    }
    if e < |lines| {
      EndsAtHeading(lines, e, h, filled);
    } else {
      EndStep(lines, e, h, filled);
    }
  }

  /** Every heading has depth at least one, so the root section, at depth
    * 0, reads every line. */
  lemma RootReadsAll(lines: seq<string>, pos: nat, current: Section)
    ensures BindsFrom(lines, pos, 0, current).1 >= |lines|
  {
    var q := BindsFrom(lines, pos, 0, current).1;
    BindsFromStops(lines, pos, 0, current);
    if q < |lines| {
      HeadingDepth(lines[q + 1]);
    }
  }

  /** A configuration without headings is one section holding the
    * bindings of its lines, comments and other lines skipped. */
  lemma FlatConfig(lines: seq<string>)
    requires NoHeadings(lines, 0, |lines|)
    ensures ParseTree(lines) == Section([], BindsOf(lines), "")
  {
    var root := Section([], [], "");
    FlatRun(lines, 0, |lines|, 0, root);
    assert lines[0..|lines|] == lines;
    assert [] + BindsOf(lines) == BindsOf(lines);
    EndStep(lines, |lines|, 0, Section([], BindsOf(lines), ""));
  }

  /** At the end of the lines the section is done. */
  lemma EndStep(lines: seq<string>, pos: nat, scope: int, current: Section)
    requires pos >= |lines|
    ensures BindsFrom(lines, pos, scope, current) == (current, pos)
  {
  }

  // ---------------------------------------------------------------------
  // The parser

  /** The parser: the lines of the configuration and the line it is
    * reading. */
  class Parser {
    var contentLines: seq<string>
    var readingLine: int

    /** `NewParser`. */
    constructor ()
      ensures contentLines == [] && readingLine == 0
    {
      contentLines := [];
      readingLine := 0;
    }

    /** `ReadContent`, given the contents of the directory's regular
      * `.conf` files in order: none is `os.ErrNotExist`; otherwise the
      * lines of the contents joined by line breaks. */
    method ReadContent(contents: seq<string>) returns (err: Option<string>)
      modifies this
      ensures contents == [] ==> err == Some("file does not exist") && unchanged(this)
      ensures contents != [] ==>
                err == None && contentLines == Split(Join(contents, "\n"), "\n") && readingLine == old(readingLine)
    {
      if |contents| == 0 {
        return Some("file does not exist");
      }
      contentLines := Split(Join(contents, "\n"), "\n");
      return None;
    }

    /** `getKeybindAtLine`. */
    method GetKeybindAtLine(lineNumber: int) returns (r: Option<KeyBinding>)
      requires 0 <= lineNumber < |contentLines|
      ensures r == KeybindAt(contentLines[lineNumber])
    {
      var line := contentLines[lineNumber];
      var parts := SplitN(line, "=", 2);
      if |parts| < 2 {
        return None;
      }
      var keys := parts[1];
      var keyParts := SplitN(keys, "#", 2);
      keys := keyParts[0];
      var comment := "";
      if |keyParts| > 1 {
        comment := TrimSpace(keyParts[1]);
      }
      var keyFields := SplitN(keys, ",", 5);
      if |keyFields| < 3 {
        return None;
      }
      var mods := TrimSpace(keyFields[0]);
      var key := TrimSpace(keyFields[1]);
      var dispatcher := TrimSpace(keyFields[2]);
      var params := "";
      if |keyFields| > 3 {
        params := TrimSpace(Join(keyFields[3..], ","));
      }
      if comment != "" {
        if HasPrefix(comment, HideComment) {
          return None;
        }
      } else {
        comment := AutogenerateComment(dispatcher, params);
      }
      var modList := SplitMods(mods);
      return Some(KeyBinding(modList, key, dispatcher, params, comment));
    }

    /** The part of `getBindsRecursive` for a line that is no heading: a
      * "#/#" line or a line starting with "bind" adds its binding (when it
      * has one); every other line is skipped. */
    method ReadBindLine(current: Section) returns (next: Section)
      requires 0 <= readingLine < |contentLines| && !IsHeading(contentLines[readingLine])
      ensures next == if IsBindCandidate(contentLines[readingLine])
                      then AddBind(current, KeybindAt(contentLines[readingLine]))
                      else current
    {
      var line := contentLines[readingLine];
      if HasPrefix(line, "#/#") {
        var keybind := GetKeybindAtLine(readingLine);
        next := AddBind(current, keybind);
      } else if line == "" || !HasPrefix(TrimSpace(line), "bind") {
        next := current;
      } else {
        var keybind := GetKeybindAtLine(readingLine);
        next := AddBind(current, keybind);
      }
    }

    /** `getBindsRecursive`: fills the section from the current line on,
      * and leaves the parser where `BindsFrom` says. */
    method GetBindsRecursive(currentContent: Section, scope: int) returns (r: Section)
      requires 0 <= readingLine
      modifies this
      decreases |contentLines| - readingLine, 1
      ensures contentLines == old(contentLines)
      ensures (r, readingLine) == BindsFrom(contentLines, old(readingLine), scope, currentContent)
    {
      ghost var lines, start := contentLines, readingLine;
      ghost var goal := BindsFrom(lines, start, scope, currentContent);
      var current := currentContent;
      while readingLine < |contentLines|
        invariant contentLines == lines
        invariant start <= readingLine
        invariant BindsFrom(lines, readingLine, scope, current) == goal
        decreases |contentLines| - readingLine
      {
        var line := contentLines[readingLine];
        if IsHeading(line) {
          var headingScope := IndexChar(line, '!');
          if headingScope <= scope {
            CloseStep(lines, readingLine, scope, current);
            readingLine := readingLine - 1;
            return current;
          }
          current := OpenChild(current, scope);
        } else {
          LineStep(lines, readingLine, scope, current);
          current := ReadBindLine(current);
          readingLine := readingLine + 1;
        }
      }
      return current;
    }

    /** The heading branch of `getBindsRecursive` for a heading deeper
      * than the section: the child section it opens is read recursively
      * and added, and the parser moves past where the child stopped. */
    method OpenChild(current: Section, scope: int) returns (next: Section)
      requires 0 <= readingLine < |contentLines| && IsHeading(contentLines[readingLine])
      requires IndexChar(contentLines[readingLine], '!') > scope
      modifies this
      decreases |contentLines| - readingLine, 0
      ensures contentLines == old(contentLines) && old(readingLine) < readingLine
      ensures BindsFrom(contentLines, readingLine, scope, next)
              == BindsFrom(contentLines, old(readingLine), scope, current)
    {
      ghost var lines, at := contentLines, readingLine;
      var line := contentLines[readingLine];
      var headingScope := IndexChar(line, '!');
      var sectionName := TrimSpace(line[headingScope + 1..]);
      readingLine := readingLine + 1;
      var childSection := Section([], [], sectionName);
      var result := GetBindsRecursive(childSection, headingScope);
      next := current.(children := current.children + [result]);
      readingLine := readingLine + 1;
      OpenAfter(lines, at, scope, current, result, readingLine);
    }

    /** `ParseKeys` on the lines read. */
    method ParseKeys() returns (r: Section)
      modifies this
      ensures contentLines == old(contentLines)
      ensures r == ParseTree(contentLines) && readingLine >= |contentLines|
    {
      readingLine := 0;
      r := GetBindsRecursive(Section([], [], ""), 0);
      RootReadsAll(contentLines, 0, Section([], [], ""));
    }
  }
}
