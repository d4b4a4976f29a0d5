/** The package-installation screen of the installer wizard: its text
  * wrapper, and how progress reports update the model. */
module TuiViewsInstall {
  import opened Common
  import opened Strs
  import opened TextWrap
  import opened TuiModel

  /** `wrapText`: a text no longer than `width` is returned as it is;
    * otherwise its words are wrapped greedily at `width`, which gives ""
    * for a text of white space only. Lengths count characters, one per
    * byte of the source's strings. */
  method WrapText(text: string, width: int) returns (r: string, ghost groups: seq<seq<string>>)
    ensures |text| <= width ==> r == text
    ensures |text| > width && Fields(text) == [] ==> r == ""
    ensures |text| > width && Fields(text) != [] ==>
              GreedyWrap(Fields(text), groups, width) && r == Join(Lines(groups), "\n")
  {
    if |text| <= width {
      return text, [];
    }
    var result := "";
    var words := Fields(text);
    var currentLine := "";
    ghost var current: seq<string> := [];
    var lines: seq<string> := [];
    groups := [];
    var i := 0;
    while i < |words|
      invariant 0 <= i <= |words|
      invariant WrapState(words[..i], width, result, lines, currentLine, groups, current)
    {
      assert IsWord(words[i]);
      assert words[..i + 1] == words[..i] + [words[i]];
      result, lines, currentLine, groups, current := WrapWord(words[..i], words[i], width, result, lines, currentLine, groups, current);
      i := i + 1;
    }
    assert words[..i] == words;
    if |currentLine| > 0 {
      TerminatedThenLine(lines, currentLine);
      assert Lines(groups + [current]) == lines + [currentLine];
      result := result + currentLine;
      groups := groups + [current];
    }
    r := result;
  }

  /** Where `wrapText`'s loop stands after the words `done`: the finished
    * lines written out, each ended by a newline, and the line being
    * built, non-empty once a word was seen, completing a greedy
    * wrapping of `done`. */
  ghost predicate WrapState(done: seq<string>, width: int, result: string, lines: seq<string>,
                            currentLine: string, groups: seq<seq<string>>, current: seq<string>)
  {
    result == Terminated(lines) && lines == Lines(groups)
    && (done == [] ==> currentLine == "" && groups == [])
    && (done != [] ==> currentLine == Join(current, " ") && currentLine != "" && GreedyWrap(done, groups + [current], width))
  }

  /** One pass of `wrapText`'s loop: the word joins the current line when
    * it fits, else the current line is finished and the word starts the
    * next. */
  method WrapWord(done: seq<string>, word: string, width: int, result0: string, lines0: seq<string>,
                  currentLine0: string, ghost groups0: seq<seq<string>>, ghost current0: seq<string>)
    returns (result: string, lines: seq<string>, currentLine: string, ghost groups: seq<seq<string>>, ghost current: seq<string>)
    requires IsWord(word)
    requires WrapState(done, width, result0, lines0, currentLine0, groups0, current0)
    ensures WrapState(done + [word], width, result, lines, currentLine, groups, current)
  {
    result, lines, currentLine, groups, current := result0, lines0, currentLine0, groups0, current0;
    if |currentLine| == 0 {
      currentLine := word;
      current := [word];
      FirstLine(word, width);
    } else if |currentLine| + 1 + |word| <= width {
      ExtendLine(done, groups, current, word, width);
      assert (groups + [current])[|groups|] == current;
      JoinAppend(current, word, " ");
      currentLine := currentLine + " " + word;
      current := current + [word];
    } else {
      StartLine(done, groups, current, word, width);
      assert Lines(groups + [current]) == lines + [currentLine];
      result := result + currentLine + "\n";
      lines := lines + [currentLine];
      groups := groups + [current];
      currentLine := word;
      current := [word];
    }
  }

  /** The installation log keeps its last 50 entries. */
  const MaxInstallationLogs := 50

  /** The log after one more entry. */
  function AppendLog(logs: seq<string>, entry: string): (r: seq<string>)
    ensures 0 < |r| <= MaxInstallationLogs
    ensures HasSuffixSeq(logs + [entry], r) && r[|r| - 1] == entry
    ensures |logs| < MaxInstallationLogs ==> r == logs + [entry]
    ensures |logs| >= MaxInstallationLogs ==> |r| == MaxInstallationLogs
  {
    var all := logs + [entry];
    if |all| > MaxInstallationLogs then all[|all| - MaxInstallationLogs..] else all
  }

  predicate HasSuffixSeq(s: seq<string>, t: seq<string>)
  {
    |t| <= |s| && s[|s| - |t|..] == t
  }

  /** `updateInstallingPackagesState`. A progress report is stored, its
    * log output (if any) added to the capped log, and on completion the
    * screen moves on: to the error screen when the report carries an
    * error, otherwise to the configuration check with the log cleared. Any
    * other message only keeps the log listener going. */
  method UpdateInstallingPackagesState(m: Model, msg: Msg) returns (cmd: Cmd)
    modifies m
    ensures !msg.PackageProgressMsg? ==> cmd == ListenForLogs && unchanged(m)
    ensures msg.PackageProgressMsg? ==>
              var p := msg.progress;
              var logs := if p.logOutput != "" then AppendLog(old(m.installationLogs), p.logOutput)
                          else old(m.installationLogs);
              m.packageProgress == p
              && m.err == old(m.err) && m.selectedConfig == old(m.selectedConfig)
              && m.replaceConfigs == old(m.replaceConfigs) && m.existingConfigs == old(m.existingConfigs)
              && (!p.isComplete ==>
                    cmd == ListenForPackageProgress && m.state == old(m.state)
                    && m.isLoading == old(m.isLoading) && m.installationLogs == logs)
              && (p.isComplete && p.error.Some? ==>
                    cmd == ListenForPackageProgress && m.state == StateError
                    && !m.isLoading && m.installationLogs == logs)
              && (p.isComplete && p.error.None? ==>
                    cmd == TickAndCheckExistingConfigurations && m.state == StateConfigConfirmation
                    && m.isLoading && m.installationLogs == [])
  {
    if msg.PackageProgressMsg? {
      var p := msg.progress;
      m.packageProgress := p;
      if p.logOutput != "" {
        m.installationLogs := m.installationLogs + [p.logOutput];
        if |m.installationLogs| > 50 {
          m.installationLogs := m.installationLogs[|m.installationLogs| - 50..];
        }
      }
      if p.isComplete {
        if p.error.Some? {
          m.state := StateError;
          m.isLoading := false;
        } else {
          m.installationLogs := [];
          m.state := StateConfigConfirmation;
          m.isLoading := true;
          return TickAndCheckExistingConfigurations;
        }
      }
      return ListenForPackageProgress;
    }
    return ListenForLogs;
  }
}
