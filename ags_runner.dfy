/** The application runner: a hidden overlay window holding a "Run> "
  * prompt and a text entry. Accepting the entry asks the applications
  * service for the apps matching the typed text and launches the match
  * when there is exactly one. */
module AgsRunner {
  import opened AgsWidgets

  /** An installed application, as the applications service lists it. */
  datatype App = App(name: string)

  /** What accepting the entry does: refuse an ambiguous query, fail on
    * `undefined` when nothing matches, or launch the single match. */
  datatype Outcome = TooMany | Threw | Launched(app: App)

  const TooManyMessage: string := "Too many applications to handle"
  const RunnerName: string := "hyprrunner"

  /** The rule `onAccept` follows for the matches of the typed text: more
    * than one is logged and ignored; with none, `app[0]` is `undefined`
    * and launching it throws; otherwise the first match is launched. */
  function Accept(matches: seq<App>): (r: Outcome)
    ensures r == TooMany <==> |matches| > 1
    ensures r == Threw <==> |matches| == 0
    ensures r.Launched? <==> |matches| == 1
    ensures r.Launched? ==> r.app == matches[0]
  {
    if |matches| > 1 then TooMany
    else if |matches| == 0 then Threw
    else Launched(matches[0])
  }

  /** The applications an outcome starts. */
  function Started(r: Outcome): (s: seq<App>)
    ensures |s| <= 1
    ensures r.Launched? ==> s == [r.app]
    ensures !r.Launched? ==> s == []
  {
    if r.Launched? then [r.app] else []
  }

  /** The lines an outcome writes to the log. */
  function Logged(r: Outcome): (s: seq<string>)
    ensures r == TooMany <==> s == [TooManyMessage]
    ensures r != TooMany <==> s == []
  {
    if r == TooMany then [TooManyMessage] else []
  }

  /** The state `onAccept` touches: the entry's text, the windows that are
    * open, the applications launched so far and the log. */
  class Runner {
    var text: string
    var openWindows: set<string>
    var launched: seq<App>
    var log: seq<string>

    /** The runner as the configuration starts it: an empty entry and its
      * window closed (`visible: false`). */
    constructor ()
      ensures text == "" && openWindows == {} && launched == [] && log == []
    {
      text := "";
      openWindows := {};
      launched := [];
      log := [];
    }

    /** `onAccept`: the applications service answers `query` for the typed
      * text. Only a launch clears the text and closes the runner window;
      * a refusal or a throw leaves both as they were. */
    method OnAccept(query: string -> seq<App>) returns (r: Outcome)
      modifies this
      ensures r == Accept(query(old(text)))
      ensures launched == old(launched) + Started(r)
      ensures log == old(log) + Logged(r)
      ensures text == (if r.Launched? then "" else old(text))
      ensures openWindows == (if r.Launched? then old(openWindows) - {RunnerName} else old(openWindows))
    {
      var app := query(text);
      if |app| > 1 {
        log := log + [TooManyMessage];
        return TooMany;
      }
      if |app| == 0 {
        // `app[0]` is undefined: calling `launch` on it throws before
        // the text or the windows change.
        return Threw;
      }
      launched := launched + [app[0]];
      text := "";
      openWindows := openWindows - {RunnerName};
      r := Launched(app[0]);
    }
  }

  /** Whatever the service answers, at most one application starts per
    * accept, and it is the unique match. */
  lemma AcceptStartsUniqueMatch(matches: seq<App>)
    ensures |Started(Accept(matches))| == (if |matches| == 1 then 1 else 0)
    ensures |matches| == 1 ==> Started(Accept(matches)) == matches
  {
  }

  // ---------------------------------------------------------------------
  // The runner's widgets

  /** The prompt label: start-aligned, not expanding, text "Run> ". */
  function RunLabelArgs(): Props
  {
    map[Custom("className") := Str("text run"), Halign := Str("start"), Xalign := Num(0.0),
        Base(Hexpand) := Bool(false), LabelText := Str("Run> ")]
  }

  function RunLabel(): Props
  {
    Label(RunLabelArgs())
  }

  /** The prompt reads "Run> ". */
  lemma RunLabelPrompt()
    ensures RunLabel()[LabelText] == Str("Run> ")
  {
    LabelTextFallback(RunLabelArgs());
  }

  /** The prompt does not expand, overriding the baseline's `hexpand`. */
  lemma RunLabelKeepsWidth()
    ensures RunLabel()[Base(Hexpand)] == Bool(false)
  {
    var o := RunLabelArgs();
    assert Base(Hexpand) in o && o[Base(Hexpand)] == Bool(false);
    MakeCaller({}, LabelDefaults(o), o, {LabelText}, Base(Hexpand));
  }

  /** The text entry, with its accept callback and a width of 20
    * characters. */
  function InputArgs(): Props
  {
    map[Custom("className") := Str("text"), Custom("onAccept") := Ref("onAccept"),
        Custom("maxWidthChars") := Num(20.0)]
  }

  /** The entry is built from exactly these properties, without the
    * baseline. */
  lemma InputWithoutBaseline()
    ensures Entry(InputArgs()) == InputArgs()
    ensures forall b :: Base(b) !in Entry(InputArgs())
  {
  }

  /** The box holding prompt and entry, sized from the first monitor:
    * 30% of its width wide, with 10% of its height as margin. */
  function RunnerBoxArgs(width: real, height: real): Props
  {
    map[Custom("className") := Str("runner"), Custom("widthRequest") := Num(width * 0.30),
        Custom("margin") := Num(height * 0.10), Children := List([Ref("run"), Ref("input")])]
  }

  /** The box holds the prompt, then the entry. */
  lemma RunnerBoxChildren(width: real, height: real)
    ensures Box(RunnerBoxArgs(width, height))[Children] == List([Ref("run"), Ref("input")])
  {
    BoxOwnDefaults(RunnerBoxArgs(width, height));
  }

  /** The box is 30% of the monitor's width wide. */
  lemma RunnerBoxWidth(width: real, height: real)
    ensures Box(RunnerBoxArgs(width, height))[Custom("widthRequest")] == Num(width * 0.30)
  {
    var o := RunnerBoxArgs(width, height);
    assert Custom("widthRequest") in o && o[Custom("widthRequest")] == Num(width * 0.30);
    MakeCaller({}, BoxDefaults(o), o, {Children}, Custom("widthRequest"));
  }

  /** The runner window's properties. */
  function HyprRunnerArgs(): Props
  {
    map[Base(Visible) := Bool(false), Child := Ref("runner"), Name := Str(RunnerName),
        Anchor := List([Str("top")]), Exclusive := Bool(false), Focusable := Bool(true),
        Popup := Bool(true), Layer := Str("overlay")]
  }

  function HyprRunner(): Props
  {
    Window(HyprRunnerArgs())
  }

  /** The runner window starts hidden, overriding the visible baseline. */
  lemma HyprRunnerHidden()
    ensures HyprRunner()[Base(Visible)] == Bool(false)
  {
    var o := HyprRunnerArgs();
    assert Base(Visible) in o && o[Base(Visible)] == Bool(false);
    WindowKeeps(o, Base(Visible));
  }

  /** The runner window is named "hyprrunner", the name `onAccept`
    * closes. */
  lemma HyprRunnerNamed()
    ensures HyprRunner()[Name] == Str(RunnerName)
  {
    var o := HyprRunnerArgs();
    assert Name in o && o[Name] == Str(RunnerName);
    WindowKeeps(o, Name);
  }

  /** The runner window sits on the overlay layer, not the window
    * default "top". */
  lemma HyprRunnerOverlay()
    ensures HyprRunner()[Layer] == Str("overlay")
  {
    var o := HyprRunnerArgs();
    assert Layer in o && o[Layer] == Str("overlay");
    WindowKeeps(o, Layer);
  }

  /** The runner window takes no exclusive zone. */
  lemma HyprRunnerIgnored()
    ensures HyprRunner()[Exclusivity] == Str("ignore")
  {
    var o := HyprRunnerArgs();
    assert Exclusivity !in o && Get(o, Exclusive) == Bool(false);
    WindowExclusivity(o);
  }

  /** The runner window takes the keyboard focus. */
  lemma HyprRunnerFocusable()
    ensures HyprRunner()[Focusable] == Bool(true)
  {
    var o := HyprRunnerArgs();
    assert Focusable in o && o[Focusable] == Bool(true);
    WindowKeeps(o, Focusable);
  }

  /** The runner window is a popup. */
  lemma HyprRunnerPopup()
    ensures HyprRunner()[Popup] == Bool(true)
  {
    var o := HyprRunnerArgs();
    assert Popup in o && o[Popup] == Bool(true);
    WindowKeeps(o, Popup);
  }
}
