/** The widget factories of the AGS bar configuration. Each factory takes
  * the caller's property object and builds the object handed to the
  * toolkit's constructor as a JavaScript spread: the shared baseline, then
  * the kind's own defaults, then every caller property the factory did not
  * destructure, each later source replacing the keys of the earlier ones.
  * Property objects are maps from property names to JavaScript values. */
module AgsWidgets {

  /** The JavaScript values the factories handle. `Ref` stands for a
    * widget, a callback or any other object, by a name. */
  datatype Value =
    | Undefined
    | Null
    | Bool(b: bool)
    | Num(n: real)
    | Str(s: string)
    | List(items: seq<Value>)
    | Ref(name: string)

  /** The property names the shared baseline sets. */
  datatype BaseKey =
    | HPack | VPack | Properties | Connections | Binds | Setup
    | Expand | HasTooltip | Hexpand | HexpandSet | Sensitive
    | Vexpand | VexpandSet | Visible

  /** Property names: a baseline name, a name some factory sets, or any
    * other name a caller passes through (`Custom`). */
  datatype Key =
    | Base(b: BaseKey)
    | Vertical | Children | Homogeneous | Spacing
    | Child | OnClicked | OnPrimaryClick | OnSecondaryClick | OnMiddleClick
    | OnPrimaryClickRelease | OnSecondaryClickRelease | OnMiddleClickRelease
    | OnHover | OnHoverLost | OnScrollUp | OnScrollDown
    | Halign | StartWidget | CenterWidget | EndWidget
    | Justification | Truncate | LabelText | Wrap | Xalign | Yalign
    | ValueKey
    | Name | Anchor | Exclusive | Exclusivity | Focusable | Layer | Margins
    | Monitor | Popup | AcceptFocus | Decorated | HasResizeGrip
    | Custom(name: string)

  type Props = map<Key, Value>

  /** JavaScript truthiness, which `||` and `?:` test. */
  predicate Truthy(v: Value)
  {
    match v
    case Undefined => false
    case Null => false
    case Bool(b) => b
    case Num(n) => n != 0.0
    case Str(s) => s != ""
    case List(_) => true
    case Ref(_) => true
  }

  /** `a || b`: `a` when it is truthy, else `b`. */
  function Or(a: Value, b: Value): (r: Value)
    ensures Truthy(a) ==> r == a
    ensures !Truthy(a) ==> r == b
  {
    if Truthy(a) then a else b
  }

  /** A destructured parameter: the caller's value, or `undefined` when the
    * caller did not give the key. */
  function Get(o: Props, k: Key): (v: Value)
    ensures k in o ==> v == o[k]
    ensures k !in o ==> v == Undefined
  {
    if k in o then o[k] else Undefined
  }

  /** `{...base, ...own, ...rest}`: every key of the three, each taking its
    * value from the last source that has it (`SpreadLaws`). */
  function Spread(base: Props, own: Props, rest: Props): Props
  {
    base + own + rest
  }

  /** The keys of a spread are those of its sources, and a later source
    * wins over the earlier ones. */
  lemma SpreadLaws(base: Props, own: Props, rest: Props)
    ensures Spread(base, own, rest).Keys == base.Keys + own.Keys + rest.Keys
    ensures forall k :: k in rest ==> Spread(base, own, rest)[k] == rest[k]
    ensures forall k :: k in own && k !in rest ==> Spread(base, own, rest)[k] == own[k]
    ensures forall k :: k in base && k !in own && k !in rest ==> Spread(base, own, rest)[k] == base[k]
  {
  }

  /** Every baseline name. */
  const BaseKeys: set<BaseKey> := {
    HPack, VPack, Properties, Connections, Binds, Setup, Expand, HasTooltip,
    Hexpand, HexpandSet, Sensitive, Vexpand, VexpandSet, Visible}

  /** The baseline value of each name: centred, growing horizontally
    * only, sensitive and visible, without a tooltip, and no properties,
    * connections, binds or setup. */
  function BaseValue(b: BaseKey): Value
  {
    match b
    case HPack => Str("center")
    case VPack => Str("center")
    case Expand => Bool(false)
    case HasTooltip => Bool(false)
    case Hexpand => Bool(true)
    case HexpandSet => Bool(true)
    case Sensitive => Bool(true)
    case Vexpand => Bool(false)
    case VexpandSet => Bool(true)
    case Visible => Bool(true)
    case _ => Null
  }

  /** `BaseKeys` holds every baseline name. */
  lemma BaseKeysComplete()
    ensures forall b: BaseKey :: b in BaseKeys
  {
    forall b: BaseKey
      ensures b in BaseKeys
    {
      match b
      case HPack => case VPack => case Properties => case Connections => case Binds =>
      case Setup => case Expand => case HasTooltip => case Hexpand => case HexpandSet =>
      case Sensitive => case Vexpand => case VexpandSet => case Visible =>
    }
  }

  /** `BaseProperties`: the defaults every factory but `Entry` starts from.
    * It sets exactly the baseline names. */
  function BaseProperties(): (m: Props)
    ensures forall k :: k in m <==> k.Base?
    ensures forall b :: Base(b) in m && m[Base(b)] == BaseValue(b)
  {
    BaseKeysComplete();
    map b | b in BaseKeys :: Base(b) := BaseValue(b)
  }

  /** The destructured parameters a factory sets back under their own
    * names: the caller's value, or `undefined`. */
  function Pick(o: Props, fwd: set<Key>): (m: Props)
    ensures m.Keys == fwd
    ensures forall k :: k in fwd ==> m[k] == Get(o, k)
  {
    map k | k in fwd :: Get(o, k)
  }

  /** A factory's result: the baseline, then the parameters it sets back
    * and the kind's own defaults, then the caller's properties less those
    * the factory destructured. */
  function Make(fwd: set<Key>, own: Props, o: Props, taken: set<Key>): Props
  {
    Spread(BaseProperties(), Pick(o, fwd) + own, o - taken)
  }

  /** What every factory over the baseline keeps: caller properties it did
    * not destructure, or sets back, win; the parameters it sets back are
    * present with the caller's value; and baseline names the caller does
    * not give keep their baseline values. */
  lemma MakeLaws(fwd: set<Key>, own: Props, o: Props, taken: set<Key>)
    requires forall k :: k in fwd ==> !k.Base? && k !in own
    requires forall k :: k in own ==> !k.Base?
    ensures forall k :: k in o && (k !in taken || k in fwd) ==>
              k in Make(fwd, own, o, taken) && Make(fwd, own, o, taken)[k] == o[k]
    ensures forall k :: k in fwd ==> k in Make(fwd, own, o, taken) && Make(fwd, own, o, taken)[k] == Get(o, k)
    ensures forall b :: Base(b) !in o ==>
              Base(b) in Make(fwd, own, o, taken) && Make(fwd, own, o, taken)[Base(b)] == BaseValue(b)
  {
    SpreadLaws(BaseProperties(), Pick(o, fwd) + own, o - taken);
  }

  /** A key of the kind's own defaults that the caller does not pass on
    * takes the kind's default. */
  lemma MakeOwn(fwd: set<Key>, own: Props, o: Props, taken: set<Key>, k: Key)
    requires k in own && k !in fwd && (k !in o || k in taken)
    ensures k in Make(fwd, own, o, taken) && Make(fwd, own, o, taken)[k] == own[k]
  {
    SpreadLaws(BaseProperties(), Pick(o, fwd) + own, o - taken);
  }

  /** A caller property the factory does not destructure, or sets back,
    * keeps the caller's value. */
  lemma MakeCaller(fwd: set<Key>, own: Props, o: Props, taken: set<Key>, k: Key)
    requires k in o && (k !in taken || (k in fwd && k !in own))
    ensures k in Make(fwd, own, o, taken) && Make(fwd, own, o, taken)[k] == o[k]
  {
    SpreadLaws(BaseProperties(), Pick(o, fwd) + own, o - taken);
  }

  /** A baseline name that neither the caller nor the kind sets keeps its
    * baseline value. */
  lemma MakeBase(fwd: set<Key>, own: Props, o: Props, taken: set<Key>, b: BaseKey)
    requires Base(b) !in o && Base(b) !in own && Base(b) !in fwd
    ensures Base(b) in Make(fwd, own, o, taken) && Make(fwd, own, o, taken)[Base(b)] == BaseValue(b)
  {
    SpreadLaws(BaseProperties(), Pick(o, fwd) + own, o - taken);
  }

  /** A key the factory destructures and does not set itself is dropped. */
  lemma MakeDrops(fwd: set<Key>, own: Props, o: Props, taken: set<Key>, k: Key)
    requires k in taken && k !in fwd && k !in own && !k.Base?
    ensures k !in Make(fwd, own, o, taken)
  {
    SpreadLaws(BaseProperties(), Pick(o, fwd) + own, o - taken);
  }

  // ---------------------------------------------------------------------
  // Box

  /** The defaults `Box` adds to the baseline. */
  function BoxDefaults(o: Props): Props
  {
    map[Vertical := Bool(false), Children := Or(Get(o, Children), List([])),
        Homogeneous := Bool(false), Spacing := Num(0.0)]
  }

  /** `Box`, which destructures `children`. */
  function Box(o: Props): Props
  {
    Make({}, BoxDefaults(o), o, {Children})
  }

  /** A box passes on every caller property but `children`, and keeps the
    * baseline the caller does not override. */
  lemma BoxForwards(o: Props)
    ensures forall k :: k in o && k != Children ==> k in Box(o) && Box(o)[k] == o[k]
    ensures forall b :: Base(b) !in o ==> Base(b) in Box(o) && Box(o)[Base(b)] == BaseValue(b)
  {
    MakeLaws({}, BoxDefaults(o), o, {Children});
  }

  /** A box's children default to the empty list when missing or falsy,
    * and it is horizontal unless the caller says otherwise. */
  lemma BoxOwnDefaults(o: Props)
    ensures Children in Box(o) && Box(o)[Children] == (if Truthy(Get(o, Children)) then o[Children] else List([]))
    ensures Vertical !in o ==> Vertical in Box(o) && Box(o)[Vertical] == Bool(false)
  {
    var own := BoxDefaults(o);
    MakeOwn({}, own, o, {Children}, Children);
    if Vertical !in o { MakeOwn({}, own, o, {Children}, Vertical); }
  }

  // ---------------------------------------------------------------------
  // Button

  /** The callbacks `Button` clears unless the caller sets them. */
  const ButtonCallbacks: set<Key> := {
    OnClicked, OnPrimaryClick, OnSecondaryClick, OnMiddleClick,
    OnPrimaryClickRelease, OnSecondaryClickRelease, OnMiddleClickRelease,
    OnHover, OnHoverLost, OnScrollUp, OnScrollDown}

  /** The defaults `Button` adds to the baseline: null callbacks. */
  function ButtonDefaults(): Props
  {
    map k | k in ButtonCallbacks :: Null
  }

  /** `Button`, which destructures `child` and sets it back. */
  function Button(o: Props): Props
  {
    Make({Child}, ButtonDefaults(), o, {Child})
  }

  /** A button passes on every caller property, gives its child as given,
    * and keeps the baseline the caller does not override. */
  lemma ButtonForwards(o: Props)
    ensures forall k :: k in o ==> k in Button(o) && Button(o)[k] == o[k]
    ensures Child in Button(o) && Button(o)[Child] == Get(o, Child)
    ensures forall b :: Base(b) !in o ==> Base(b) in Button(o) && Button(o)[Base(b)] == BaseValue(b)
  {
    MakeLaws({Child}, ButtonDefaults(), o, {Child});
  }

  /** A button leaves every callback the caller does not set null. */
  lemma ButtonOwnDefaults(o: Props)
    ensures forall k :: k in ButtonCallbacks && k !in o ==> k in Button(o) && Button(o)[k] == Null
  {
    forall k | k in ButtonCallbacks && k !in o
      ensures k in Button(o) && Button(o)[k] == Null
    {
      MakeOwn({Child}, ButtonDefaults(), o, {Child}, k);
    }
  }

  // ---------------------------------------------------------------------
  // CenterBox

  /** The slots `CenterBox` destructures and sets back. */
  const CenterBoxSlots: set<Key> := {StartWidget, CenterWidget, EndWidget}

  /** The defaults `CenterBox` adds to the baseline: it fills horizontally
    * and has no generic children. */
  function CenterBoxDefaults(): Props
  {
    map[Halign := Str("fill"), Vertical := Bool(false), Children := List([]),
        Homogeneous := Bool(false), Spacing := Num(0.0)]
  }

  /** `CenterBox`, which destructures its three slots and sets them back. */
  function CenterBox(o: Props): Props
  {
    Make(CenterBoxSlots, CenterBoxDefaults(), o, CenterBoxSlots)
  }

  /** A center box passes on every caller property, gives its three slot
    * widgets as given, and keeps the baseline the caller does not
    * override. */
  lemma CenterBoxForwards(o: Props)
    ensures forall k :: k in o ==> k in CenterBox(o) && CenterBox(o)[k] == o[k]
    ensures forall k :: k in CenterBoxSlots ==> k in CenterBox(o) && CenterBox(o)[k] == Get(o, k)
    ensures forall b :: Base(b) !in o ==> Base(b) in CenterBox(o) && CenterBox(o)[Base(b)] == BaseValue(b)
  {
    MakeLaws(CenterBoxSlots, CenterBoxDefaults(), o, CenterBoxSlots);
  }

  /** A center box has an empty generic children list and fills
    * horizontally unless the caller says otherwise. */
  lemma CenterBoxOwnDefaults(o: Props)
    ensures Children !in o ==> Children in CenterBox(o) && CenterBox(o)[Children] == List([])
    ensures Halign !in o ==> Halign in CenterBox(o) && CenterBox(o)[Halign] == Str("fill")
  {
    var own := CenterBoxDefaults();
    if Children !in o { MakeOwn(CenterBoxSlots, own, o, CenterBoxSlots, Children); }
    if Halign !in o { MakeOwn(CenterBoxSlots, own, o, CenterBoxSlots, Halign); }
  }

  // ---------------------------------------------------------------------
  // Entry

  /** `Entry`: the caller's properties alone; the baseline is not applied. */
  function Entry(o: Props): (r: Props)
    ensures r.Keys == o.Keys
    ensures forall k :: k in o ==> r[k] == o[k]
    ensures forall b :: Base(b) !in o ==> Base(b) !in r
  {
    SpreadLaws(map[], map[], o);
    Spread(map[], map[], o)
  }

  // ---------------------------------------------------------------------
  // Label

  /** The defaults `Label` adds to the baseline. */
  function LabelDefaults(o: Props): Props
  {
    map[Justification := Str("center"), Truncate := Str("end"),
        LabelText := Or(Get(o, LabelText), Str("")), Wrap := Bool(false),
        Xalign := Num(0.5), Yalign := Num(0.5)]
  }

  /** `Label`, which destructures `label`. */
  function Label(o: Props): Props
  {
    Make({}, LabelDefaults(o), o, {LabelText})
  }

  /** A label passes on every caller property but its text, and keeps the
    * baseline the caller does not override. */
  lemma LabelForwards(o: Props)
    ensures forall k :: k in o && k != LabelText ==> k in Label(o) && Label(o)[k] == o[k]
    ensures forall b :: Base(b) !in o ==> Base(b) in Label(o) && Label(o)[Base(b)] == BaseValue(b)
  {
    MakeLaws({}, LabelDefaults(o), o, {LabelText});
  }

  /** A label's text is the caller's when truthy and "" otherwise. */
  lemma LabelTextFallback(o: Props)
    ensures LabelText in Label(o) && Label(o)[LabelText] == (if Truthy(Get(o, LabelText)) then o[LabelText] else Str(""))
  {
    MakeOwn({}, LabelDefaults(o), o, {LabelText}, LabelText);
  }

  /** A label is centred, end-truncated and not wrapped unless the caller
    * says otherwise. */
  lemma LabelOwnDefaults(o: Props)
    ensures Justification !in o ==> Justification in Label(o) && Label(o)[Justification] == Str("center")
    ensures Truncate !in o ==> Truncate in Label(o) && Label(o)[Truncate] == Str("end")
    ensures Wrap !in o ==> Wrap in Label(o) && Label(o)[Wrap] == Bool(false)
  {
    var own := LabelDefaults(o);
    if Justification !in o { MakeOwn({}, own, o, {LabelText}, Justification); }
    if Truncate !in o { MakeOwn({}, own, o, {LabelText}, Truncate); }
    if Wrap !in o { MakeOwn({}, own, o, {LabelText}, Wrap); }
  }

  // ---------------------------------------------------------------------
  // ProgressBar

  /** The defaults `ProgressBar` adds to the baseline. */
  function ProgressBarDefaults(): Props
  {
    map[Halign := Str("fill"), Vertical := Bool(false)]
  }

  /** `ProgressBar`, which destructures `value` and sets it back. */
  function ProgressBar(o: Props): Props
  {
    Make({ValueKey}, ProgressBarDefaults(), o, {ValueKey})
  }

  /** A progress bar passes on every caller property, gives its value as
    * given, and keeps the baseline the caller does not override. */
  lemma ProgressBarForwards(o: Props)
    ensures forall k :: k in o ==> k in ProgressBar(o) && ProgressBar(o)[k] == o[k]
    ensures ValueKey in ProgressBar(o) && ProgressBar(o)[ValueKey] == Get(o, ValueKey)
    ensures forall b :: Base(b) !in o ==> Base(b) in ProgressBar(o) && ProgressBar(o)[Base(b)] == BaseValue(b)
  {
    MakeLaws({ValueKey}, ProgressBarDefaults(), o, {ValueKey});
  }

  /** A progress bar fills horizontally unless the caller says otherwise. */
  lemma ProgressBarOwnDefaults(o: Props)
    ensures Halign !in o ==> Halign in ProgressBar(o) && ProgressBar(o)[Halign] == Str("fill")
  {
    if Halign !in o { MakeOwn({ValueKey}, ProgressBarDefaults(), o, {ValueKey}, Halign); }
  }

  // ---------------------------------------------------------------------
  // Window

  /** The exclusivity `Window` derives from the caller's `exclusive` flag. */
  function ExclusivityOf(exclusive: Value): (v: Value)
    ensures v == Str("exclusive") || v == Str("ignore")
    ensures v == Str("exclusive") <==> Truthy(exclusive)
  {
    if Truthy(exclusive) then Str("exclusive") else Str("ignore")
  }

  /** The parameters `Window` destructures and sets back. */
  const WindowForwarded: set<Key> := {Child, Name, Anchor}

  /** The defaults `Window` adds to the baseline: the exclusivity its
    * `exclusive` flag selects, the "top" layer, no margins, monitor 0 and
    * every flag off. */
  function WindowDefaults(o: Props): Props
  {
    map[Focusable := Bool(false), Monitor := Num(0.0), Popup := Bool(false),
        AcceptFocus := Bool(false), Decorated := Bool(false), HasResizeGrip := Bool(false),
        Margins := List([]), Layer := Str("top"), Exclusivity := ExclusivityOf(Get(o, Exclusive))]
  }

  /** `Window`, which destructures child, name, anchor and exclusive and
    * sets back all but the last. */
  function Window(o: Props): Props
  {
    Make(WindowForwarded, WindowDefaults(o), o, WindowForwarded + {Exclusive})
  }

  /** A window passes on every caller property but `exclusive`; it gives
    * child, name and anchor as given. */
  lemma WindowForwards(o: Props)
    ensures forall k :: k in o && k != Exclusive ==> k in Window(o) && Window(o)[k] == o[k]
    ensures forall k :: k in WindowForwarded ==> k in Window(o) && Window(o)[k] == Get(o, k)
  {
    MakeLaws(WindowForwarded, WindowDefaults(o), o, WindowForwarded + {Exclusive});
  }

  /** One caller property other than `exclusive`, as a window passes it
    * on. */
  lemma WindowKeeps(o: Props, k: Key)
    requires k in o && k != Exclusive
    ensures k in Window(o) && Window(o)[k] == o[k]
  {
    MakeCaller(WindowForwarded, WindowDefaults(o), o, WindowForwarded + {Exclusive}, k);
  }

  /** A window drops the caller's `exclusive` flag. */
  lemma WindowDropsExclusive(o: Props)
    ensures Exclusive !in Window(o)
  {
    MakeDrops(WindowForwarded, WindowDefaults(o), o, WindowForwarded + {Exclusive}, Exclusive);
  }

  /** A window keeps the baseline the caller does not override. */
  lemma WindowBaseline(o: Props)
    ensures forall b :: Base(b) !in o ==> Base(b) in Window(o) && Window(o)[Base(b)] == BaseValue(b)
  {
    MakeLaws(WindowForwarded, WindowDefaults(o), o, WindowForwarded + {Exclusive});
  }

  /** A window's exclusivity is "exclusive" exactly when the caller's
    * `exclusive` is truthy, unless the caller sets `exclusivity` itself. */
  lemma WindowExclusivity(o: Props)
    ensures Exclusivity !in o ==>
              Exclusivity in Window(o) && Window(o)[Exclusivity] == ExclusivityOf(Get(o, Exclusive))
  {
    if Exclusivity !in o {
      MakeOwn(WindowForwarded, WindowDefaults(o), o, WindowForwarded + {Exclusive}, Exclusivity);
    }
  }

  /** A window sits on the "top" layer unless the caller says otherwise. */
  lemma WindowLayer(o: Props)
    ensures Layer !in o ==> Layer in Window(o) && Window(o)[Layer] == Str("top")
  {
    if Layer !in o {
      MakeOwn(WindowForwarded, WindowDefaults(o), o, WindowForwarded + {Exclusive}, Layer);
    }
  }

  /** A window has no margins unless the caller says otherwise. */
  lemma WindowMargins(o: Props)
    ensures Margins !in o ==> Margins in Window(o) && Window(o)[Margins] == List([])
  {
    if Margins !in o {
      MakeOwn(WindowForwarded, WindowDefaults(o), o, WindowForwarded + {Exclusive}, Margins);
    }
  }

  // ---------------------------------------------------------------------
  // Without overrides

  /** With no caller properties, every factory but `Entry` gives each
    * baseline name its baseline value. */
  lemma BaselineWithoutOverrides(b: BaseKey)
    ensures Box(map[])[Base(b)] == BaseValue(b) && Button(map[])[Base(b)] == BaseValue(b)
    ensures CenterBox(map[])[Base(b)] == BaseValue(b) && Label(map[])[Base(b)] == BaseValue(b)
    ensures ProgressBar(map[])[Base(b)] == BaseValue(b) && Window(map[])[Base(b)] == BaseValue(b)
  {
    BoxForwards(map[]);
    ButtonForwards(map[]);
    CenterBoxForwards(map[]);
    LabelForwards(map[]);
    ProgressBarForwards(map[]);
    WindowBaseline(map[]);
  }

  /** With no caller properties, a box has no children and a label shows
    * "". */
  lemma KindDefaultsWithoutOverrides()
    ensures Box(map[])[Children] == List([])
    ensures Label(map[])[LabelText] == Str("")
  {
    BoxOwnDefaults(map[]);
    LabelTextFallback(map[]);
  }

  /** With no caller properties, a window ignores exclusivity and an entry
    * is empty. */
  lemma WindowWithoutOverrides()
    ensures Window(map[])[Exclusivity] == Str("ignore")
    ensures Entry(map[]) == map[]
  {
    WindowExclusivity(map[]);
  }
}
