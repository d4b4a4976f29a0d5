/** The greeter installer: the choice between detected compositors, the
  * rewrite of greetd's configuration so that its default session runs the
  * DMS greeter, and the way commands are handed to `sudo`. */
module GreeterInstaller {
  import opened Common
  import opened Strs

  // ---------------------------------------------------------------------
  // Compositor choice

  /** `PromptCompositorChoice` once the answer line has been read (`input`
    * is the line, or the read error): "1" picks the first compositor, "2"
    * the second when there is one; anything else is an invalid choice. */
  function CompositorChoice(compositors: seq<string>, input: Result<string>): (r: Result<string>)
    requires input.Ok? && TrimSpace(input.value) == "1" ==> |compositors| >= 1
    ensures input.Err? ==> r == Err("error reading input: " + input.msg)
    ensures input.Ok? ==>
              (r.Ok? <==> TrimSpace(input.value) == "1" || (TrimSpace(input.value) == "2" && |compositors| >= 2))
    ensures input.Ok? && r.Err? ==> r.msg == "invalid choice"
    ensures r.Ok? ==> exists i :: 0 <= i < 2 && i < |compositors| && compositors[i] == r.value
                                 && TrimSpace(input.value) == ["1", "2"][i]
  {
    if input.Err? then Err("error reading input: " + input.msg)
    else
      var response := TrimSpace(input.value);
      if response == "1" then
        assert ["1", "2"][0] == "1";
        Ok(compositors[0])
      else if response == "2" then
        if |compositors| > 1 then
          assert ["1", "2"][1] == "2";
          Ok(compositors[1])
        else Err("invalid choice")
      else Err("invalid choice")
  }

  // ---------------------------------------------------------------------
  // greetd configuration

  /** The configuration used when greetd has none. */
  const DefaultGreetdConfig: string := "[terminal]\nvt = 1\n\n[default_session]\n\nuser = \"greeter\"\n"

  /** The user line every user setting is replaced by. */
  const GreeterUser: string := "user = \"greeter\""

  /** A (trimmed) line setting the session command. */
  predicate IsCommandLine(t: string)
  {
    HasPrefix(t, "command =") || HasPrefix(t, "command=")
  }

  /** A (trimmed) line setting the session user. */
  predicate IsUserLine(t: string)
  {
    HasPrefix(t, "user =") || HasPrefix(t, "user=")
  }

  /** The lines with every command line dropped and every user line
    * replaced by the greeter user, in order. */
  function Cleaned(lines: seq<string>): (r: seq<string>)
    ensures |r| <= |lines|
  {
    if |lines| == 0 then []
    else
      var init, line := lines[..|lines| - 1], lines[|lines| - 1];
      var t := TrimSpace(line);
      if IsCommandLine(t) then Cleaned(init)
      else if IsUserLine(t) then Cleaned(init) + [GreeterUser]
      else Cleaned(init) + [line]
  }

  /** The greeter user line is a trimmed user line, not a command line. */
  lemma GreeterUserShape()
    ensures TrimSpace(GreeterUser) == GreeterUser
    ensures IsUserLine(GreeterUser) && !IsCommandLine(GreeterUser)
  {
    TrimSpaceOfTrimmed(GreeterUser);
    assert GreeterUser[..6] == "user =";
  }

  /** After cleaning no command line is left, every user line is the
    * greeter user, and every other line is one of the original lines that
    * set neither. */
  lemma {:induction false} CleanedLines(lines: seq<string>)
    ensures forall k :: 0 <= k < |Cleaned(lines)| ==> !IsCommandLine(TrimSpace(Cleaned(lines)[k]))
    ensures forall k :: 0 <= k < |Cleaned(lines)| ==>
              Cleaned(lines)[k] == GreeterUser
              || (Cleaned(lines)[k] in lines && !IsUserLine(TrimSpace(Cleaned(lines)[k])))
  {
    GreeterUserShape();
    if |lines| > 0 {
      var init := lines[..|lines| - 1];
      CleanedLines(init);
      var r, c := Cleaned(lines), Cleaned(init);
      forall k | 0 <= k < |r|
        ensures !IsCommandLine(TrimSpace(r[k]))
        ensures r[k] == GreeterUser || (r[k] in lines && !IsUserLine(TrimSpace(r[k])))
      {
        if k < |c| {
          assert r[k] == c[k];
          assert c[k] == GreeterUser || c[k] in init;
        }
      }
    }
  }

  /** Every line that sets neither the command nor the user survives the
    * cleaning. */
  lemma {:induction false} CleanedKeeps(lines: seq<string>, k: nat)
    requires k < |lines|
    requires !IsCommandLine(TrimSpace(lines[k])) && !IsUserLine(TrimSpace(lines[k]))
    ensures lines[k] in Cleaned(lines)
  {
    var init := lines[..|lines| - 1];
    if k < |lines| - 1 {
      assert init[k] == lines[k];
      CleanedKeeps(init, k);
    }
  }

  /** The line opening the default session section. */
  predicate IsSessionHeader(line: string)
  {
    TrimSpace(line) == "[default_session]"
  }

  /** A line the command may follow: not blank, not a section header, not
    * a comment, and not a user setting. */
  predicate IsAnchor(line: string)
  {
    var t := TrimSpace(line);
    t != "" && !HasPrefix(t, "[") && !HasPrefix(t, "#") && !HasPrefix(t, "user")
  }

  /** Line `i` is an anchor and the default session section opened at or
    * before it. */
  predicate Eligible(lines: seq<string>, i: int)
  {
    0 <= i < |lines| && IsAnchor(lines[i]) && exists j :: 0 <= j <= i && IsSessionHeader(lines[j])
  }

  /** The first eligible line at or after `k`, where `inSession` says
    * whether the section opened before `k`. */
  function SlotFrom(lines: seq<string>, k: nat, inSession: bool): (r: Option<nat>)
    requires k <= |lines|
    decreases |lines| - k
    ensures r.Some? ==> k <= r.value < |lines|
  {
    if k == |lines| then None
    else
      var inS := inSession || IsSessionHeader(lines[k]);
      if inS && IsAnchor(lines[k]) then Some(k) else SlotFrom(lines, k + 1, inS)
  }

  /** The line after which the command goes, if any. */
  function CommandSlot(lines: seq<string>): (r: Option<nat>)
    ensures r.Some? ==> r.value < |lines|
  {
    SlotFrom(lines, 0, false)
  }

  lemma {:induction false} SlotFromFirst(lines: seq<string>, k: nat, inSession: bool)
    requires k <= |lines|
    requires inSession <==> exists j :: 0 <= j < k && IsSessionHeader(lines[j])
    ensures SlotFrom(lines, k, inSession).Some? ==>
              Eligible(lines, SlotFrom(lines, k, inSession).value)
              && forall i :: k <= i < SlotFrom(lines, k, inSession).value ==> !Eligible(lines, i)
    ensures SlotFrom(lines, k, inSession).None? ==> forall i :: k <= i < |lines| ==> !Eligible(lines, i)
    decreases |lines| - k
  {
    if k < |lines| {
      var inS := inSession || IsSessionHeader(lines[k]);
      assert inS <==> exists j :: 0 <= j < k + 1 && IsSessionHeader(lines[j]);
      if !(inS && IsAnchor(lines[k])) {
        SlotFromFirst(lines, k + 1, inS);
      }
    }
  }

  /** The command goes after the first eligible line; with none it goes at
    * the end. */
  lemma CommandSlotFirst(lines: seq<string>)
    ensures CommandSlot(lines).Some? ==>
              Eligible(lines, CommandSlot(lines).value)
              && forall i :: 0 <= i < CommandSlot(lines).value ==> !Eligible(lines, i)
    ensures CommandSlot(lines).None? ==> forall i :: 0 <= i < |lines| ==> !Eligible(lines, i)
  {
    SlotFromFirst(lines, 0, false);
  }

  /** Where the command line is inserted. */
  function InsertIndex(lines: seq<string>): (r: nat)
    ensures r <= |lines|
  {
    if CommandSlot(lines).Some? then CommandSlot(lines).value + 1 else |lines|
  }

  /** The lines with the command inserted. */
  function Placed(lines: seq<string>, command: string): (r: seq<string>)
  {
    lines[..InsertIndex(lines)] + [command] + lines[InsertIndex(lines)..]
  }

  /** The command line is inserted once: taking it out gives the lines
    * back, and when the lines held no command line it is the only one. */
  lemma PlacedOnce(lines: seq<string>, command: string)
    requires forall k :: 0 <= k < |lines| ==> !IsCommandLine(TrimSpace(lines[k]))
    ensures var p, n := Placed(lines, command), InsertIndex(lines);
            |p| == |lines| + 1 && p[n] == command && p[..n] + p[n + 1..] == lines
            && forall i :: 0 <= i < |p| && IsCommandLine(TrimSpace(p[i])) ==> i == n
  {
    var p, n := Placed(lines, command), InsertIndex(lines);
    assert p[..n] == lines[..n] && p[n + 1..] == lines[n..];
    forall i | 0 <= i < |p| && i != n ensures !IsCommandLine(TrimSpace(p[i])) {
      if i < n { assert p[i] == lines[i]; } else { assert p[i] == lines[i - 1]; }
    }
  }

  /** The wrapper the greeter is started through: found on the search path,
    * or at its install location. */
  function WrapperCommand(wrapperOnPath: bool): (r: string)
    ensures r == "dms-greeter" || r == "/usr/local/bin/dms-greeter"
    ensures wrapperOnPath <==> r == "dms-greeter"
  {
    if wrapperOnPath then "dms-greeter" else "/usr/local/bin/dms-greeter"
  }

  /** The session command line: the wrapper run with the compositor's name
    * in lower case and the DMS path. */
  function GreetdCommand(wrapperOnPath: bool, compositor: string, dmsPath: string): (r: string)
    ensures TrimSpace(r) == r && IsCommandLine(r)
    ensures HasPrefix(r, "command = \"" + WrapperCommand(wrapperOnPath) + " --command ")
  {
    var r := "command = \"" + WrapperCommand(wrapperOnPath) + " --command " + ToLower(compositor)
             + " -p " + dmsPath + "\"";
    TrimSpaceOfTrimmed(r);
    assert r[..9] == "command =";
    assert r[..|"command = \"" + WrapperCommand(wrapperOnPath) + " --command "|]
           == "command = \"" + WrapperCommand(wrapperOnPath) + " --command ";
    r
  }

  /** The configuration rewrite of `ConfigureGreetd`: the existing file's
    * text, or the default when there is none, split into lines; command
    * lines dropped and user lines replaced; then the command added after
    * the first line of the default session that is not blank, a header, a
    * comment or a user setting, or at the end when there is none. Whether
    * the wrapper is on the search path is a parameter. */
  method ConfigureGreetdText(existing: Option<string>, dmsPath: string, compositor: string, wrapperOnPath: bool)
    returns (newConfig: string)
    ensures var content := if existing.Some? then existing.value else DefaultGreetdConfig;
            newConfig == Join(Placed(Cleaned(Split(content, "\n")), GreetdCommand(wrapperOnPath, compositor, dmsPath)), "\n")
  {
    var configContent := if existing.Some? then existing.value else DefaultGreetdConfig;
    var lines := Split(configContent, "\n");
    var newLines := CleanLines(lines);

    var wrapperCmd := "dms-greeter";
    if !wrapperOnPath {
      wrapperCmd := "/usr/local/bin/dms-greeter";
    }
    var compositorLower := ToLower(compositor);
    var command := "command = \"" + wrapperCmd + " --command " + compositorLower + " -p " + dmsPath + "\"";
    assert command == GreetdCommand(wrapperOnPath, compositor, dmsPath);

    var finalLines := PlaceCommand(newLines, command);
    newConfig := Join(finalLines, "\n");
  }

  /** The first loop of `ConfigureGreetd`: command lines dropped, user
    * lines replaced. */
  method CleanLines(lines: seq<string>) returns (newLines: seq<string>)
    ensures newLines == Cleaned(lines)
  {
    newLines := [];
    var i := 0;
    while i < |lines|
      invariant 0 <= i <= |lines|
      invariant newLines == Cleaned(lines[..i])
    {
      assert lines[..i + 1][..i] == lines[..i];
      var trimmed := TrimSpace(lines[i]);
      if !HasPrefix(trimmed, "command =") && !HasPrefix(trimmed, "command=") {
        if HasPrefix(trimmed, "user =") || HasPrefix(trimmed, "user=") {
          newLines := newLines + [GreeterUser];
        } else {
          newLines := newLines + [lines[i]];
        }
      }
      i := i + 1;
    }
    assert lines[..i] == lines;
  }

  /** The second loop of `ConfigureGreetd`: each line copied, the command
    * added after the first eligible one, or at the end. */
  method PlaceCommand(newLines: seq<string>, command: string) returns (finalLines: seq<string>)
    ensures finalLines == Placed(newLines, command)
  {
    finalLines := [];
    var inDefaultSession := false;
    var commandAdded := false;
    var j := 0;
    while j < |newLines|
      invariant 0 <= j <= |newLines|
      invariant inDefaultSession <==> exists h :: 0 <= h < j && IsSessionHeader(newLines[h])
      invariant !commandAdded ==> finalLines == newLines[..j] && SlotFrom(newLines, j, inDefaultSession) == CommandSlot(newLines)
      invariant commandAdded ==> CommandSlot(newLines).Some? && CommandSlot(newLines).value < j
                                 && finalLines == newLines[..CommandSlot(newLines).value + 1] + [command]
                                                  + newLines[CommandSlot(newLines).value + 1..j]
    {
      var line := newLines[j];
      if commandAdded {
        var s := CommandSlot(newLines).value;
        assert newLines[s + 1..j + 1] == newLines[s + 1..j] + [line];
      } else {
        assert newLines[..j + 1] == newLines[..j] + [line];
      }
      finalLines := finalLines + [line];
      var trimmed := TrimSpace(line);
      if trimmed == "[default_session]" {
        inDefaultSession := true;
      }
      if inDefaultSession && !commandAdded && trimmed != "" && !HasPrefix(trimmed, "[") {
        if !HasPrefix(trimmed, "#") && !HasPrefix(trimmed, "user") {
          assert newLines[j + 1..j + 1] == [];
          finalLines := finalLines + [command];
          commandAdded := true;
        }
      }
      j := j + 1;
    }
    if !commandAdded {
      assert newLines[..j] == newLines;
      finalLines := finalLines + [command];
    }
  }

  /** When the DMS path and the compositor's name hold no line break, the
    * written file reads back as the placed lines: no line but the inserted
    * one sets the command, the inserted one follows the first eligible
    * line of the default session (or ends the file), and every user line
    * names the greeter. */
  lemma GreetdConfigured(content: string, dmsPath: string, compositor: string, wrapperOnPath: bool)
    requires '\n' !in dmsPath && '\n' !in compositor
    ensures var cleaned := Cleaned(Split(content, "\n"));
            var command := GreetdCommand(wrapperOnPath, compositor, dmsPath);
            var out := Split(Join(Placed(cleaned, command), "\n"), "\n");
            var n := InsertIndex(cleaned);
            out == Placed(cleaned, command)
            && out[n] == command
            && (forall i :: 0 <= i < |out| && IsCommandLine(TrimSpace(out[i])) ==> i == n)
            && (forall i :: 0 <= i < |out| && IsUserLine(TrimSpace(out[i])) ==> out[i] == GreeterUser)
            && (CommandSlot(cleaned).Some? ==>
                  n == CommandSlot(cleaned).value + 1 && Eligible(cleaned, CommandSlot(cleaned).value)
                  && forall i :: 0 <= i < CommandSlot(cleaned).value ==> !Eligible(cleaned, i))
            && (CommandSlot(cleaned).None? ==>
                  n == |cleaned| && forall i :: 0 <= i < |cleaned| ==> !Eligible(cleaned, i))
  {
    var lines := Split(content, "\n");
    var cleaned := Cleaned(lines);
    var command := GreetdCommand(wrapperOnPath, compositor, dmsPath);
    var p := Placed(cleaned, command);
    assert Split(Join(p, "\n"), "\n") == p by {
      SplitLinesLackNewline(content);
      CleanedLackNewline(lines);
      CommandLacksNewline(wrapperOnPath, compositor, dmsPath);
      PlacedLackNewline(cleaned, command);
      SplitJoinChar(p, '\n');
    }
    assert p[InsertIndex(cleaned)] == command
           && forall i :: 0 <= i < |p| && IsCommandLine(TrimSpace(p[i])) ==> i == InsertIndex(cleaned) by {
      CleanedLines(lines);
      PlacedOnce(cleaned, command);
    }
    assert forall i :: 0 <= i < |p| && IsUserLine(TrimSpace(p[i])) ==> p[i] == GreeterUser by {
      CleanedLines(lines);
      PlacedUsers(cleaned, command);
    }
    CommandSlotFirst(cleaned);
  }

  /** The lines of a split at line breaks hold none. */
  lemma SplitLinesLackNewline(content: string)
    ensures forall k :: 0 <= k < |Split(content, "\n")| ==> '\n' !in Split(content, "\n")[k]
  {
    var lines := Split(content, "\n");
    forall k | 0 <= k < |lines| ensures '\n' !in lines[k] {
      LacksChar(lines[k], '\n');
    }
  }

  /** Cleaning adds no line break. */
  lemma CleanedLackNewline(lines: seq<string>)
    requires forall k :: 0 <= k < |lines| ==> '\n' !in lines[k]
    ensures forall k :: 0 <= k < |Cleaned(lines)| ==> '\n' !in Cleaned(lines)[k]
  {
    CleanedLines(lines);
    assert '\n' !in GreeterUser;
  }

  /** The command line holds no line break when its parts hold none. */
  lemma CommandLacksNewline(wrapperOnPath: bool, compositor: string, dmsPath: string)
    requires '\n' !in dmsPath && '\n' !in compositor
    ensures '\n' !in GreetdCommand(wrapperOnPath, compositor, dmsPath)
  {
    ToLowerKeepsNewlineOut(compositor);
    assert '\n' !in WrapperCommand(wrapperOnPath);
  }

  /** Inserting a line without line breaks keeps the lines free of them. */
  lemma PlacedLackNewline(lines: seq<string>, command: string)
    requires forall k :: 0 <= k < |lines| ==> '\n' !in lines[k]
    requires '\n' !in command
    ensures forall k :: 0 <= k < |Placed(lines, command)| ==> '\n' !in Placed(lines, command)[k]
  {
    var p, n := Placed(lines, command), InsertIndex(lines);
    forall k | 0 <= k < |p| ensures '\n' !in p[k] {
      if k < n {
        assert p[k] == lines[k];
      } else if k > n {
        assert p[k] == lines[k - 1];
      }
    }
  }

  /** After the command goes in, every user line is still the greeter
    * user. */
  lemma PlacedUsers(lines: seq<string>, command: string)
    requires forall k :: 0 <= k < |lines| && IsUserLine(TrimSpace(lines[k])) ==> lines[k] == GreeterUser
    requires IsCommandLine(TrimSpace(command))
    ensures forall i :: 0 <= i < |Placed(lines, command)| && IsUserLine(TrimSpace(Placed(lines, command)[i])) ==>
              Placed(lines, command)[i] == GreeterUser
  {
    var p, n := Placed(lines, command), InsertIndex(lines);
    var t := TrimSpace(command);
    assert t[0] == 'c' by {
      if HasPrefix(t, "command =") {
        assert t[0] == t[..9][0];
      } else {
        assert t[0] == t[..8][0];
      }
    }
    assert !IsUserLine(t) by {
      assert !HasPrefix(t, "user =") by { assert "user ="[0] == 'u'; }
      assert !HasPrefix(t, "user=") by { assert "user="[0] == 'u'; }
    }
    forall i | 0 <= i < |p| && IsUserLine(TrimSpace(p[i])) ensures p[i] == GreeterUser {
      if i < n {
        assert p[i] == lines[i];
      } else if i > n {
        assert p[i] == lines[i - 1];
      }
    }
  }

  /** Lower-casing adds no line break. */
  lemma ToLowerKeepsNewlineOut(s: string)
    requires '\n' !in s
    ensures '\n' !in ToLower(s)
  {
    forall k | 0 <= k < |s| ensures ToLower(s)[k] != '\n' {
      assert s[k] != '\n';
    }
  }

  // ---------------------------------------------------------------------
  // Commands run through sudo

  /** One argument in single quotes, each quote inside written as a closed
    * quote, an escaped quote and an opened quote. */
  function Quote(arg: string): (r: string)
    ensures |r| >= 2 && r[0] == '\'' && r[|r| - 1] == '\''
  {
    "'" + Escaped(arg) + "'"
  }

  /** The argument with each single quote replaced by `'\''`. */
  function Escaped(s: string): (r: string)
    ensures |r| >= |s|
    ensures '\'' !in s ==> r == s
  {
    if s == [] then []
    else (if s[0] == '\'' then "'\\''" else [s[0]]) + Escaped(s[1..])
  }

  /** How a command is started: the program and its arguments. */
  type Argv = seq<string>

  /** `runSudoCmd`'s command line. With no password, `sudo` runs the
    * command directly. With one, a `bash -c` script pipes the password
    * into `sudo -S` and the command and its arguments follow, each quoted
    * (the quoted strings are gathered in an array before being joined). */
  method SudoArgv(sudoPassword: string, command: string, args: seq<string>) returns (argv: Argv)
    ensures sudoPassword == "" ==> argv == ["sudo", command] + args
    ensures sudoPassword != "" ==> argv == ["bash", "-c", SudoScript(sudoPassword, [command] + args)]
  {
    if sudoPassword != "" {
      var fullArgs := [command] + args;
      var quotedArgs := new string[|fullArgs|];
      var i := 0;
      while i < |fullArgs|
        invariant 0 <= i <= |fullArgs|
        invariant forall k :: 0 <= k < i ==> quotedArgs[k] == Quote(fullArgs[k])
      {
        quotedArgs[i] := "'" + Escaped(fullArgs[i]) + "'";
        i := i + 1;
      }
      assert quotedArgs[..] == QuotedArgs(fullArgs);
      var cmdStr := Join(quotedArgs[..], " ");
      argv := ["bash", "-c", EchoPassword(sudoPassword) + " | sudo -S " + cmdStr];
    } else {
      argv := ["sudo", command] + args;
    }
  }

  /** Every argument quoted. */
  function QuotedArgs(args: seq<string>): (r: seq<string>)
    ensures |r| == |args| && forall k :: 0 <= k < |args| ==> r[k] == Quote(args[k])
  {
    seq(|args|, k requires 0 <= k < |args| => Quote(args[k]))
  }

  /** The script `bash -c` runs: the password echoed into `sudo -S`,
    * then the quoted command. */
  function SudoScript(sudoPassword: string, fullArgs: seq<string>): (r: string)
    ensures HasPrefix(r, EchoPassword(sudoPassword) + " | sudo -S ")
  {
    var r := EchoPassword(sudoPassword) + " | sudo -S " + Join(QuotedArgs(fullArgs), " ");
    assert r[..|EchoPassword(sudoPassword) + " | sudo -S "|] == EchoPassword(sudoPassword) + " | sudo -S ";
    r
  }

  /** The command that prints the password, with the password quoted like
    * the arguments. */
  function EchoPassword(sudoPassword: string): (r: string)
  {
    "echo " + Quote(sudoPassword)
  }

  /** The command that prints the password as the source writes it: the
    * password between single quotes, with its own quotes left as they
    * are. */
  function EchoPasswordAsWritten(sudoPassword: string): (r: string)
    ensures '\'' !in sudoPassword ==> r == EchoPassword(sudoPassword)
  {
    "echo '" + sudoPassword + "'"
  }

  // ---------------------------------------------------------------------
  // How bash reads a simple command's words

  /** Characters that end, or change the meaning of, an unquoted word. */
  predicate Special(c: char)
  {
    c in {' ', '\t', '\n', '|', '&', ';', '(', ')', '<', '>', '$', '`', '"', '*', '?', '[', '#', '~'}
  }

  function Shifted(r: Option<(string, nat)>, pre: string, k: nat): Option<(string, nat)>
  {
    if r.None? then None else Some((pre + r.value.0, r.value.1 + k))
  }

  /** Reads one word from the start of `s` (inside a single-quoted string
    * when `quoted`): the word and how many characters it took, stopping
    * before an unquoted space or at the end. Single quotes take everything
    * up to the next quote literally; a backslash outside them takes the
    * next character literally. An unterminated quote, a trailing
    * backslash, and an unquoted character outside the plain ones are not
    * read. */
  function ReadWord(s: string, quoted: bool): (r: Option<(string, nat)>)
    decreases |s|
  {
    if s == [] then (if quoted then None else Some(("", 0)))
    else if quoted then
      if s[0] == '\'' then Shifted(ReadWord(s[1..], false), "", 1)
      else Shifted(ReadWord(s[1..], true), [s[0]], 1)
    else if s[0] == ' ' then Some(("", 0))
    else if s[0] == '\'' then Shifted(ReadWord(s[1..], true), "", 1)
    else if s[0] == '\\' then
      if |s| < 2 || s[1] == '\n' then None else Shifted(ReadWord(s[2..], false), [s[1]], 2)
    else if Special(s[0]) then None
    else Shifted(ReadWord(s[1..], false), [s[0]], 1)
  }

  /** The words of a simple command separated by spaces, or None when a
    * word cannot be read. */
  function Words(s: string): (r: Option<seq<string>>)
    decreases |s|
  {
    if s == [] then Some([])
    else if s[0] == ' ' then Words(s[1..])
    else
      var w := ReadWord(s, false);
      if w.None? then None
      else
        ReadWordBounds(s, false);
        var rest := Words(s[w.value.1..]);
        if rest.None? then None else Some([w.value.0] + rest.value)
  }

  /** A word read stops at the end or before a space, and takes at least
    * one character unless it starts at a space outside quotes. */
  lemma {:induction false} ReadWordBounds(s: string, quoted: bool)
    decreases |s|
    ensures var r := ReadWord(s, quoted);
      r.Some? ==> r.value.1 <= |s| && (r.value.1 == |s| || s[r.value.1] == ' ')
    ensures var r := ReadWord(s, quoted);
      r.Some? && s != [] && (quoted || s[0] != ' ') ==> r.value.1 >= 1
  {
    if s != [] {
      if quoted {
        ReadWordBounds(s[1..], s[0] != '\'');
      } else if s[0] == '\'' {
        ReadWordBounds(s[1..], true);
      } else if s[0] == '\\' && |s| >= 2 {
        ReadWordBounds(s[2..], false);
      } else if s[0] != ' ' {
        ReadWordBounds(s[1..], false);
      }
    }
  }

  lemma ShiftedTwice(r: Option<(string, nat)>, p: string, k: nat, q: string, j: nat)
    ensures Shifted(Shifted(r, p, k), q, j) == Shifted(r, q + p, k + j)
  {
    if r.Some? {
      assert q + (p + r.value.0) == (q + p) + r.value.0;
    }
  }

  /** A character other than a quote inside an opened quote reads as
    * itself. */
  lemma QuotedCharRead(c: char, t: string)
    requires c != '\''
    ensures ReadWord([c] + t, true) == Shifted(ReadWord(t, true), [c], 1)
  {
    assert ([c] + t)[1..] == t;
  }

  /** A quote inside an opened quote closes it. */
  lemma CloseQuoteRead(t: string)
    ensures ReadWord(['\''] + t, true) == Shifted(ReadWord(t, false), "", 1)
  {
    assert (['\''] + t)[1..] == t;
  }

  /** A quote outside quotes opens one. */
  lemma OpenQuoteRead(t: string)
    ensures ReadWord(['\''] + t, false) == Shifted(ReadWord(t, true), "", 1)
  {
    assert (['\''] + t)[1..] == t;
  }

  /** A backslash outside quotes takes the next character, other than a
    * newline, literally. */
  lemma BackslashRead(c: char, t: string)
    requires c != '\n'
    ensures ReadWord(['\\', c] + t, false) == Shifted(ReadWord(t, false), [c], 2)
  {
    assert (['\\', c] + t)[2..] == t;
  }

  /** Inside an opened quote, an escaped argument and the closing quote
    * read back as the argument, and reading goes on after them. */
  lemma {:induction false} EscapedRead(a: string, tail: string)
    ensures ReadWord(Escaped(a) + "'" + tail, true) == Shifted(ReadWord(tail, false), a, |Escaped(a)| + 1)
  {
    if a == [] {
      assert Escaped(a) + "'" + tail == ['\''] + tail;
      CloseQuoteRead(tail);
    } else {
      var e := Escaped(a[1..]);
      var next := e + "'" + tail;
      var x := if a[0] == '\'' then "'\\''" else [a[0]];
      assert Escaped(a) == x + e;
      AppendAssoc(x, e, "'");
      AppendAssoc(x, e + "'", tail);
      assert Escaped(a) + "'" + tail == x + next;
      EscapedRead(a[1..], tail);
      var base := ReadWord(tail, false);
      assert a == [a[0]] + a[1..];
      if a[0] == '\'' {
        EscapedQuoteRead(a[1..], next, base, |e|);
      } else {
        EscapedPlainRead(a[0], a[1..], next, base, |e|);
      }
    }
  }

  /** Any other character inside an opened quote reads as itself. */
  lemma EscapedPlainRead(c: char, rest: string, next: string, base: Option<(string, nat)>, n: nat)
    requires c != '\''
    requires ReadWord(next, true) == Shifted(base, rest, n + 1)
    ensures ReadWord([c] + next, true) == Shifted(base, [c] + rest, n + 2)
  {
    QuotedCharRead(c, next);
    ShiftedTwice(base, rest, n + 1, [c], 1);
  }

  /** The four characters standing for a quote inside an opened quote
    * read back as the quote. */
  lemma EscapedQuoteRead(rest: string, next: string, base: Option<(string, nat)>, n: nat)
    requires ReadWord(next, true) == Shifted(base, rest, n + 1)
    ensures ReadWord("'\\''" + next, true) == Shifted(base, "'" + rest, n + 5)
  {
    var t1 := ['\''] + next;
    var t2 := ['\\', '\''] + t1;
    assert "'\\''" + next == ['\''] + t2;
    OpenQuoteRead(next);
    ShiftedTwice(base, rest, n + 1, "", 1);
    assert "" + rest == rest;
    BackslashRead('\'', t1);
    ShiftedTwice(base, rest, n + 2, "'", 2);
    CloseQuoteRead(t2);
    ShiftedTwice(base, "'" + rest, n + 4, "", 1);
    assert "" + ("'" + rest) == "'" + rest;
  }

  /** A quoted argument followed by a space or the end reads back as one
    * word, the argument itself. */
  lemma QuoteRead(a: string, tail: string)
    requires tail == [] || tail[0] == ' '
    ensures ReadWord(Quote(a) + tail, false) == Some((a, |Quote(a)|))
  {
    var inner := Escaped(a) + "'" + tail;
    var n := |Escaped(a)| + 1;
    assert Quote(a) + tail == ['\''] + inner by {
      AppendAssoc("'" + Escaped(a), "'", tail);
      AppendAssoc("'", Escaped(a), "'" + tail);
      AppendAssoc(Escaped(a), "'", tail);
    }
    assert ReadWord(inner, true) == Some((a, n)) by {
      assert ReadWord(tail, false) == Some(("", 0));
      EscapedRead(a, tail);
      assert a + "" == a;
    }
    OpenQuoteWord(inner, a, n);
  }

  /** A word read inside a quote, opened before it, reads as the same
    * word one character longer. */
  lemma OpenQuoteWord(inner: string, a: string, n: nat)
    requires ReadWord(inner, true) == Some((a, n))
    ensures ReadWord(['\''] + inner, false) == Some((a, n + 1))
  {
    OpenQuoteRead(inner);
    assert "" + a == a;
  }

  /** A word outside quotes is followed by the words after it. */
  lemma WordsStep(s: string, w: string, k: nat)
    requires s != [] && s[0] != ' ' && ReadWord(s, false) == Some((w, k))
    ensures k <= |s|
    ensures Words(s) == (var rest := Words(s[k..]); if rest.None? then None else Some([w] + rest.value))
  {
    ReadWordBounds(s, false);
  }

  /** Spaces between words are skipped. */
  lemma WordsSpace(t: string)
    ensures Words(" " + t) == Words(t)
  {
    assert (" " + t)[1..] == t;
  }

  /** The quoted arguments joined by spaces read back as exactly the
    * arguments: quoting keeps every argument whole, whatever it holds. */
  lemma {:induction false} QuotedArgsRead(args: seq<string>)
    ensures Words(Join(QuotedArgs(args), " ")) == Some(args)
  {
    if |args| > 0 {
      var q := QuotedArgs(args);
      var s := Join(q, " ");
      var rest := if |args| == 1 then "" else " " + Join(q[1..], " ");
      assert q[0] == Quote(args[0]);
      assert s == q[0] + rest;
      QuoteRead(args[0], rest);
      assert s[|q[0]|..] == rest;
      WordsStep(s, args[0], |q[0]|);
      assert QuotedArgs(args[1..]) == q[1..];
      QuotedArgsRead(args[1..]);
      if |args| > 1 {
        WordsSpace(Join(q[1..], " "));
      }
      assert [args[0]] + args[1..] == args;
    }
  }

  /** A plain character outside quotes reads as itself. */
  lemma PlainRead(c: char, t: string)
    requires c != ' ' && c != '\'' && c != '\\' && !Special(c)
    ensures ReadWord([c] + t, false) == Shifted(ReadWord(t, false), [c], 1)
  {
    assert ([c] + t)[1..] == t;
  }

  /** A run of plain characters outside quotes reads as itself. */
  lemma {:induction false} PlainWordRead(w: string, t: string)
    requires forall i :: 0 <= i < |w| ==> w[i] != ' ' && w[i] != '\'' && w[i] != '\\' && !Special(w[i])
    ensures ReadWord(w + t, false) == Shifted(ReadWord(t, false), w, |w|)
  {
    if w == [] {
      assert w + t == t;
      var r := ReadWord(t, false);
      if r.Some? {
        assert "" + r.value.0 == r.value.0;
      }
    } else {
      PlainWordRead(w[1..], t);
      AppendAssoc([w[0]], w[1..], t);
      assert [w[0]] + w[1..] == w;
      PlainRead(w[0], w[1..] + t);
      ShiftedTwice(ReadWord(t, false), w[1..], |w| - 1, [w[0]], 1);
    }
  }

  /** `echo` before a space or the end is read as the word `echo`. */
  lemma EchoWordRead(rest: string)
    requires rest == [] || rest[0] == ' '
    ensures ReadWord("echo" + rest, false) == Some(("echo", 4))
  {
    assert ReadWord(rest, false) == Some(("", 0));
    PlainWordRead("echo", rest);
    assert "echo" + "" == "echo";
  }

  /** The password command reads back as `echo` and the password, whatever
    * the password holds. */
  lemma EchoPasswordRead(sudoPassword: string)
    ensures Words(EchoPassword(sudoPassword)) == Some(["echo", sudoPassword])
  {
    var q := Quote(sudoPassword);
    var s := EchoPassword(sudoPassword);
    assert s == "echo" + (" " + q);
    EchoWordRead(" " + q);
    assert s[4..] == " " + q && s[4..][1..] == q;
    QuotedArgsRead([sudoPassword]);
    assert Join(QuotedArgs([sudoPassword]), " ") == q;
    assert Words(s[4..]) == Words(q) == Some([sudoPassword]);
    assert s[0] == 'e' && ReadWord(s, false) == Some(("echo", 4));
    assert ["echo"] + [sudoPassword] == ["echo", sudoPassword];
  }

  lemma SampleSplitPassword(p: string)
    requires p == "it's"
    ensures Words(EchoPasswordAsWritten(p)) == None
  {
    var t5 := ['\''];
    var t4 := ['s'] + t5;
    var t3 := ['\''] + t4;
    var t2 := ['t'] + t3;
    var t1 := ['i'] + t2;
    var t := ['\''] + t1;
    assert ReadWord(t, false) == None by {
      assert ReadWord(t5, false) == None by { OpenQuoteRead([]); }
      assert ReadWord(t4, false) == None by { PlainRead('s', t5); }
      assert ReadWord(t3, true) == None by { CloseQuoteRead(t4); }
      assert ReadWord(t2, true) == None by { QuotedCharRead('t', t3); }
      assert ReadWord(t1, true) == None by { QuotedCharRead('i', t2); }
      OpenQuoteRead(t1);
    }
    var s := EchoPasswordAsWritten(p);
    assert s == "echo" + (" " + t);
    EchoWordRead(" " + t);
    WordsStep(s, "echo", 4);
    assert s[4..] == " " + t;
    WordsSpace(t);
  }

  /** The password command as written does not survive a password with a
    * single quote: "it's" makes bash see an unterminated quote, where the
    * quoted form reads back as the password. */
  lemma AsWrittenPasswordBreaks(p: string)
    requires p == "it's"
    ensures Words(EchoPasswordAsWritten(p)) != Some(["echo", p])
    ensures Words(EchoPassword(p)) == Some(["echo", p])
  {
    SampleSplitPassword(p);
    EchoPasswordRead(p);
  }
}
