/** The log-level handling of the DMS backend: the level named by a
  * setting, and the Qt logging rules that keep the shell's own output in
  * step with it. */
module DmsLog {
  import opened Strs

  /** The logger's levels, from the most to the least verbose. */
  datatype Level = Debug | Info | Warn | Error | Fatal

  /** How verbose a level is: each level shows its own messages and those
    * of every higher rank. */
  function Rank(l: Level): (r: nat)
    ensures r < 5
  {
    match l
    case Debug => 0
    case Info => 1
    case Warn => 2
    case Error => 3
    case Fatal => 4
  }

  /** `parseLogLevel`: the level a setting names, ignoring case; "warn" and
    * "warning" are the same level, and anything unknown is info. */
  function ParseLogLevel(level: string): (r: Level)
    ensures ToLower(level) in {"debug", "info", "warn", "error", "fatal"} ==> LevelName(r) == ToLower(level)
    ensures ToLower(level) == "warning" ==> r == Warn
    ensures r != Info ==> ToLower(level) in {"debug", "warn", "warning", "error", "fatal"}
  {
    match ToLower(level)
    case "debug" => Debug
    case "info" => Info
    case "warn" => Warn
    case "warning" => Warn
    case "error" => Error
    case "fatal" => Fatal
    case _ => Info
  }

  /** The name of a level as the setting spells it. */
  function LevelName(l: Level): (r: string)
  {
    match l
    case Debug => "debug"
    case Info => "info"
    case Warn => "warn"
    case Error => "error"
    case Fatal => "fatal"
  }

  /** Lower-casing a lower-cased text changes nothing. */
  lemma ToLowerIdempotent(s: string)
    ensures ToLower(ToLower(s)) == ToLower(s)
  {
    var once := ToLower(s);
    forall k | 0 <= k < |s| ensures ToLower(once)[k] == once[k] {
      assert once[k] == LowerChar(s[k]);
    }
  }

  /** Every level's name reads back as that level, in any case. */
  lemma ParseLevelName(l: Level, spelled: string)
    requires ToLower(spelled) == LevelName(l)
    ensures ParseLogLevel(spelled) == l
  {
  }

  /** A setting and its lower-cased form name the same level. */
  lemma ParseIgnoresCase(level: string)
    ensures ParseLogLevel(ToLower(level)) == ParseLogLevel(level)
  {
    ToLowerIdempotent(level);
  }

  /** Only the five names and "warning" are recognised; every other
    * setting is info. */
  lemma ParseUnknownIsInfo(level: string)
    requires ToLower(level) !in {"debug", "info", "warn", "warning", "error", "fatal"}
    ensures ParseLogLevel(level) == Info
  {
  }

  /** The Qt message categories each rule switches off, most verbose
    * first. */
  const QtRules: seq<string> := ["*.debug=false", "*.info=false", "*.warning=false", "*.critical=false"]

  /** `GetQtLoggingRules` for the value of `DMS_LOG_LEVEL` (empty when the
    * variable is unset): nothing for debug; otherwise the categories below
    * the level switched off, joined by ";". */
  function GetQtLoggingRules(envLevel: string): (r: string)
    ensures r == "" <==> ToLower(envLevel) == "debug"
    ensures envLevel == "" ==> r == QtRules[0]
  {
    var level := if envLevel == "" then "info" else envLevel;
    match ToLower(level)
    case "fatal" => Join(QtRules[..4], ";")
    case "error" => Join(QtRules[..3], ";")
    case "warn" => Join(QtRules[..2], ";")
    case "warning" => Join(QtRules[..2], ";")
    case "info" => Join(QtRules[..1], ";")
    case "debug" => ""
    case _ => Join(QtRules[..1], ";")
  }

  /** The rules a level switches off: one category per rank below it. */
  function RulesFor(l: Level): (r: seq<string>)
    ensures |r| == Rank(l)
    ensures forall k :: 0 <= k < |QtRules| ==> (QtRules[k] in r <==> k < Rank(l))
  {
    assert forall j, k :: 0 <= j < k < |QtRules| ==> QtRules[j] != QtRules[k];
    QtRules[..Rank(l)]
  }

  /** The Qt rules follow the backend's own level: the setting given to
    * both is read the same way, and at that level exactly the categories
    * less severe than it are switched off. */
  lemma QtRulesFollowLevel(envLevel: string)
    ensures var level := ParseLogLevel(if envLevel == "" then "info" else envLevel);
            GetQtLoggingRules(envLevel) == Join(RulesFor(level), ";")
  {
  }

  /** A more severe level switches off every category a less severe one
    * does, and more. */
  lemma RulesGrowWithLevel(a: Level, b: Level)
    requires Rank(a) <= Rank(b)
    ensures forall rule :: rule in RulesFor(a) ==> rule in RulesFor(b)
    ensures Rank(a) < Rank(b) ==> exists rule :: rule in RulesFor(b) && rule !in RulesFor(a)
  {
    if Rank(a) < Rank(b) {
      var rule := QtRules[Rank(a)];
      assert rule in RulesFor(b);
      assert rule !in RulesFor(a);
    }
  }

  /** The joined rules hold no stray separator: splitting them at ";"
    * gives the rules back. */
  lemma RulesSplitBack(l: Level)
    requires l != Debug
    ensures Split(Join(RulesFor(l), ";"), ";") == RulesFor(l)
  {
    forall k | 0 <= k < |RulesFor(l)| ensures ';' !in RulesFor(l)[k] {
      assert RulesFor(l)[k] == QtRules[k];
    }
    SplitJoinChar(RulesFor(l), ';');
  }
}
