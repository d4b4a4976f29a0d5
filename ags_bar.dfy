/** The Hyprland status bar: ten workspace buttons whose classes follow the
  * compositor's state, a window title, network, volume, backlight and
  * battery icons picked from tiers of thresholds, and the bar window
  * itself. Readings the services report may be missing (`None`); a
  * comparison with a missing reading is false, so it lands in the last
  * tier. */
module AgsBar {
  import opened Common
  import opened AgsWidgets

  // ---------------------------------------------------------------------
  // Icon tiers

  /** A chain `x >= t0 ? i0 : x >= t1 ? i1 : ... : last` picks the icon at
    * this index: the first threshold the reading reaches, or `|ts|` when
    * it reaches none. */
  function TierIndex(x: Option<real>, ts: seq<real>): (i: nat)
    ensures i <= |ts|
    ensures i < |ts| ==> x.Some? && x.value >= ts[i]
    ensures forall j :: 0 <= j < i ==> !(x.Some? && x.value >= ts[j])
    decreases |ts|
  {
    if |ts| == 0 then 0
    else if x.Some? && x.value >= ts[0] then 0
    else
      var rest := TierIndex(x, ts[1..]);
      assert forall j :: 1 <= j <= rest ==> ts[j] == ts[1..][j - 1];
      1 + rest
  }

  /** Thresholds that fall from left to right, as every chain in the bar
    * does. */
  predicate Descending(ts: seq<real>)
  {
    forall i :: 1 <= i < |ts| ==> ts[i] < ts[i - 1]
  }

  /** In falling thresholds every later threshold is below every earlier
    * one. */
  lemma {:induction false} DescendingPairs(ts: seq<real>)
    requires Descending(ts)
    ensures forall i, j :: 0 <= i < j < |ts| ==> ts[j] < ts[i]
  {
    if |ts| > 1 {
      var tail := ts[1..];
      assert Descending(tail) by {
        forall i | 1 <= i < |tail| ensures tail[i] < tail[i - 1] {
          assert tail[i] == ts[i + 1] && tail[i - 1] == ts[i];
        }
      }
      DescendingPairs(tail);
      forall i, j | 0 <= i < j < |ts| ensures ts[j] < ts[i] {
        if i == 0 {
          if j > 1 { assert ts[j] == tail[j - 1] && ts[1] == tail[0]; }
        } else {
          assert ts[j] == tail[j - 1] && ts[i] == tail[i - 1];
        }
      }
    }
  }

  /** With falling thresholds, a reading lands in tier `i` exactly when it
    * reaches threshold `i` and stays below the one before it. */
  lemma TierBucket(x: real, ts: seq<real>, i: nat)
    requires Descending(ts) && i <= |ts|
    ensures TierIndex(Some(x), ts) == i <==>
              (i == |ts| || x >= ts[i]) && (i == 0 || x < ts[i - 1])
  {
    DescendingPairs(ts);
  }

  /** A larger reading never lands in a lower tier. */
  lemma TierMonotone(x: real, y: real, ts: seq<real>)
    requires x <= y
    ensures TierIndex(Some(y), ts) <= TierIndex(Some(x), ts)
  {
    var i := TierIndex(Some(x), ts);
    if i < |ts| {
      assert y >= ts[i];
    }
  }

  /** The icon a tier chain picks. */
  function Tier(x: Option<real>, ts: seq<real>, icons: seq<string>): string
    requires |icons| == |ts| + 1
  {
    icons[TierIndex(x, ts)]
  }

  /** A missing reading takes the last icon. */
  lemma TierMissing(ts: seq<real>, icons: seq<string>)
    requires |icons| == |ts| + 1
    ensures Tier(None, ts, icons) == icons[|ts|]
  {
  }

  // ---------------------------------------------------------------------
  // Network

  const WifiThresholds: seq<real> := [80.0, 60.0, 40.0, 20.0]
  const WifiIcons: seq<string> := ["\U{F0928}", "\U{F0925}", "\U{F0922}", "\U{F091F}", "\U{F092F}"]
  const WiredIcon: string := "\U{F0200}"
  const NoNetworkIcon: string := "\U{F092B}"

  /** The network icon: a fixed icon for a wired primary connection, the
    * signal-strength tier for Wi-Fi, and the disconnected icon otherwise. */
  function NetworkIcon(primary: string, strength: Option<real>): (r: string)
    ensures r == WiredIcon || r == NoNetworkIcon || r in WifiIcons
    ensures r in WifiIcons <==> primary == "wifi"
  {
    assert WiredIcon !in WifiIcons && NoNetworkIcon !in WifiIcons;
    if primary == "wired" then WiredIcon
    else if primary == "wifi" then Tier(strength, WifiThresholds, WifiIcons)
    else NoNetworkIcon
  }

  /** The network icon is determined by the primary connection alone
    * unless it is Wi-Fi, where it is the tier at 80/60/40/20 the strength
    * falls in. */
  lemma NetworkIconCases(primary: string, strength: Option<real>)
    ensures primary == "wired" ==> NetworkIcon(primary, strength) == WiredIcon
    ensures primary != "wired" && primary != "wifi" ==> NetworkIcon(primary, strength) == NoNetworkIcon
    ensures primary == "wifi" && strength.Some? ==>
              (NetworkIcon(primary, strength) == WifiIcons[0] <==> strength.value >= 80.0)
    ensures primary == "wifi" && strength.Some? ==>
              (NetworkIcon(primary, strength) == WifiIcons[4] <==> strength.value < 20.0)
    ensures primary == "wifi" && strength.None? ==> NetworkIcon(primary, strength) == WifiIcons[4]
  {
    if primary == "wifi" && strength.Some? {
      TierBucket(strength.value, WifiThresholds, 0);
      TierBucket(strength.value, WifiThresholds, 4);
      var i := TierIndex(strength, WifiThresholds);
      assert WifiIcons[i] == WifiIcons[0] <==> i == 0;
      assert WifiIcons[i] == WifiIcons[4] <==> i == 4;
    }
  }

  // ---------------------------------------------------------------------
  // Volume

  const VolumeThresholds: seq<real> := [66.0, 33.0]
  const VolumeIcons: seq<string> := ["\U{F057E}", "\U{F0580}", "\U{F057F}"]
  const MutedIcon: string := "\U{F075F}"

  /** The volume icon: muted whatever the level, else the level's tier. */
  function VolumeIcon(muted: bool, volume: Option<real>): (r: string)
    ensures r == MutedIcon || r in VolumeIcons
    ensures r == MutedIcon <==> muted
  {
    assert MutedIcon !in VolumeIcons;
    if muted then MutedIcon else Tier(volume, VolumeThresholds, VolumeIcons)
  }

  /** Mute overrides the level; otherwise the icon is the tier at 66/33 the
    * level falls in. */
  lemma VolumeIconCases(muted: bool, volume: real)
    ensures muted ==> VolumeIcon(muted, Some(volume)) == MutedIcon
    ensures !muted ==> (VolumeIcon(muted, Some(volume)) == VolumeIcons[0] <==> volume >= 66.0)
    ensures !muted ==> (VolumeIcon(muted, Some(volume)) == VolumeIcons[1] <==> 33.0 <= volume < 66.0)
    ensures !muted ==> (VolumeIcon(muted, Some(volume)) == VolumeIcons[2] <==> volume < 33.0)
    ensures VolumeIcon(muted, Some(volume)) != MutedIcon <==> !muted
  {
    var i := TierIndex(Some(volume), VolumeThresholds);
    TierBucket(volume, VolumeThresholds, 0);
    TierBucket(volume, VolumeThresholds, 1);
    TierBucket(volume, VolumeThresholds, 2);
    assert forall j, k :: 0 <= j < k < 3 ==> VolumeIcons[j] != VolumeIcons[k];
    assert forall j :: 0 <= j < 3 ==> VolumeIcons[j] != MutedIcon;
  }

  // ---------------------------------------------------------------------
  // Backlight

  const BacklightThresholds: seq<real> := [95.0, 90.0, 80.0, 70.0, 60.0, 50.0, 40.0, 30.0, 20.0, 10.0]
  const BacklightIcons: seq<string> := [
    "\U{F06E8}", "\U{F1A56}", "\U{F1A55}", "\U{F1A54}", "\U{F1A53}", "\U{F1A52}",
    "\U{F1A51}", "\U{F1A50}", "\U{F1A4F}", "\U{F1A4E}", "\U{F06E9}"]

  /** The backlight icon: the tier of the brightness percentage. */
  function BacklightIcon(percent: Option<real>): (r: string)
    ensures r in BacklightIcons
  {
    Tier(percent, BacklightThresholds, BacklightIcons)
  }

  /** The backlight thresholds fall from 95 to 10. */
  lemma BacklightDescending()
    ensures Descending(BacklightThresholds)
  {
    var ts := BacklightThresholds;
    assert forall i :: 1 <= i < |ts| ==> ts[i] < ts[i - 1];
  }

  /** Only the first tier shows the full-brightness icon and only the last
    * the dark one. */
  lemma BacklightIconsDistinctEnds(i: nat)
    requires i < |BacklightIcons|
    ensures BacklightIcons[i] == BacklightIcons[0] <==> i == 0
    ensures BacklightIcons[i] == BacklightIcons[10] <==> i == 10
  {
  }

  /** A brighter screen never shows a dimmer icon. */
  lemma BacklightIconOrder(p: real, q: real)
    requires p <= q
    ensures TierIndex(Some(q), BacklightThresholds) <= TierIndex(Some(p), BacklightThresholds)
  {
    TierMonotone(p, q, BacklightThresholds);
  }

  /** Full brightness and darkness have their own icons: from 95% up and
    * below 10%. */
  lemma BacklightIconEnds(p: real)
    ensures BacklightIcon(Some(p)) == BacklightIcons[0] <==> p >= 95.0
    ensures BacklightIcon(Some(p)) == BacklightIcons[10] <==> p < 10.0
  {
    BacklightDescending();
    TierBucket(p, BacklightThresholds, 0);
    TierBucket(p, BacklightThresholds, 10);
    BacklightIconsDistinctEnds(TierIndex(Some(p), BacklightThresholds));
  }

  // ---------------------------------------------------------------------
  // Battery

  const BatteryThresholds: seq<real> := [98.0, 90.0, 80.0, 70.0, 60.0, 50.0, 40.0, 30.0, 20.0, 10.0]
  const ChargingIcons: seq<string> := [
    "\U{F0085}", "\U{F008B}", "\U{F008A}", "\U{F089E}", "\U{F0089}", "\U{F089D}",
    "\U{F0088}", "\U{F0087}", "\U{F0086}", "\U{F089C}", "\U{F089F}"]
  const DischargingIcons: seq<string> := [
    "\U{F0079}", "\U{F0082}", "\U{F0081}", "\U{F0080}", "\U{F007F}", "\U{F007E}",
    "\U{F007D}", "\U{F007C}", "\U{F007B}", "\U{F007A}", "\U{F10CD}"]
  const ChargedIcon: string := "\U{F17E2}"

  /** The battery icon: charged whatever the level; else the level's tier,
    * from the charging table while charging and the discharging one
    * otherwise. */
  function BatteryIcon(charged: bool, charging: bool, level: Option<real>): (r: string)
    ensures r == ChargedIcon <==> charged
    ensures !charged ==> r in (if charging then ChargingIcons else DischargingIcons)
  {
    assert ChargedIcon !in ChargingIcons && ChargedIcon !in DischargingIcons;
    if charged then ChargedIcon
    else if charging then Tier(level, BatteryThresholds, ChargingIcons)
    else Tier(level, BatteryThresholds, DischargingIcons)
  }

  /** No tier icon is the charged icon. */
  lemma BatteryIconsNotCharged(i: nat)
    requires i < 11
    ensures ChargingIcons[i] != ChargedIcon && DischargingIcons[i] != ChargedIcon
  {
  }

  /** The battery thresholds fall from 98 to 10. */
  lemma BatteryDescending()
    ensures Descending(BatteryThresholds)
  {
    var ts := BatteryThresholds;
    assert forall i :: 1 <= i < |ts| ==> ts[i] < ts[i - 1];
  }

  /** Charged overrides charging; the two tables share the thresholds from
    * 98 down to 10, so both pick the same tier for a level. */
  lemma BatteryIconCases(charging: bool, level: Option<real>)
    ensures BatteryIcon(true, charging, level) == ChargedIcon
    ensures BatteryIcon(false, true, level) == ChargingIcons[TierIndex(level, BatteryThresholds)]
    ensures BatteryIcon(false, false, level) == DischargingIcons[TierIndex(level, BatteryThresholds)]
    ensures BatteryIcon(false, charging, level) != ChargedIcon
  {
    BatteryIconsNotCharged(TierIndex(level, BatteryThresholds));
  }

  /** A battery at 55% that is charging shows the charging icon of the 50%
    * tier. */
  lemma BatteryAt55Charging()
    ensures BatteryIcon(false, true, Some(55.0)) == ChargingIcons[5] == "\U{F089D}"
  {
    BatteryDescending();
    TierBucket(55.0, BatteryThresholds, 5);
  }

  // ---------------------------------------------------------------------
  // Title

  /** The title label: the active client's title, or "..." when it is
    * missing or empty. */
  function TitleText(title: Value): (r: Value)
  {
    Or(title, Str("..."))
  }

  /** The title is shown as given when it is a non-empty string, the
    * label is never blank, and a missing or empty title shows "...". */
  lemma TitleFallback(title: Value)
    ensures Truthy(TitleText(title))
    ensures title.Str? && title.s != "" ==> TitleText(title) == title
    ensures title == Undefined || title == Str("") ==> TitleText(title) == Str("...")
  {
  }

  // ---------------------------------------------------------------------
  // Icon labels

  /** A label whose text a service callback rewrites. */
  class BarLabel {
    var text: string

    constructor (initial: string)
      ensures text == initial
    {
      text := initial;
    }

    /** The network service changed. */
    method OnNetworkChanged(primary: string, strength: Option<real>)
      modifies this
      ensures text == NetworkIcon(primary, strength)
    {
      match primary {
        case "wired" => text := WiredIcon;
        case "wifi" => text := Tier(strength, WifiThresholds, WifiIcons);
        case _ => text := NoNetworkIcon;
      }
    }

    /** The audio service changed. */
    method OnAudioChanged(muted: bool, volume: Option<real>)
      modifies this
      ensures text == VolumeIcon(muted, volume)
    {
      if muted {
        text := MutedIcon;
      } else {
        text := Tier(volume, VolumeThresholds, VolumeIcons);
      }
    }

    /** The backlight service changed. */
    method OnBacklightChanged(percent: Option<real>)
      modifies this
      ensures text == BacklightIcon(percent)
    {
      text := Tier(percent, BacklightThresholds, BacklightIcons);
    }

    /** The battery service changed. */
    method OnBatteryChanged(charged: bool, charging: bool, level: Option<real>)
      modifies this
      ensures text == BatteryIcon(charged, charging, level)
    {
      if charged {
        text := ChargedIcon;
      } else if charging {
        text := Tier(level, BatteryThresholds, ChargingIcons);
      } else {
        text := Tier(level, BatteryThresholds, DischargingIcons);
      }
    }
  }

  // ---------------------------------------------------------------------
  // Workspaces

  const MaxWorkspaces: nat := 10

  /** A workspace button: the workspace it switches to and its CSS
    * classes. */
  datatype WorkspaceButton = WorkspaceButton(id: int, classes: set<string>)

  /** `toggleClassName(name, on)`: the class is present exactly when `on`
    * holds, and no other class changes. */
  function ToggleClass(classes: set<string>, name: string, on: bool): (r: set<string>)
    ensures name in r <==> on
    ensures forall c :: c != name ==> (c in r <==> c in classes)
  {
    if on then classes + {name} else classes - {name}
  }

  /** A button after the compositor reports a change: it has "exists" when
    * its workspace exists and "active" when its workspace is the active
    * one. */
  function Refreshed(b: WorkspaceButton, existing: set<int>, active: int): WorkspaceButton
  {
    WorkspaceButton(b.id, ToggleClass(ToggleClass(b.classes, "exists", b.id in existing), "active", b.id == active))
  }

  /** A refreshed button keeps its workspace; "exists" and "active" follow
    * the compositor exactly; every other class is untouched. */
  lemma RefreshedClasses(b: WorkspaceButton, existing: set<int>, active: int)
    ensures Refreshed(b, existing, active).id == b.id
    ensures "exists" in Refreshed(b, existing, active).classes <==> b.id in existing
    ensures "active" in Refreshed(b, existing, active).classes <==> b.id == active
    ensures forall c :: c != "exists" && c != "active" ==>
              (c in Refreshed(b, existing, active).classes <==> c in b.classes)
  {
    var once := ToggleClass(b.classes, "exists", b.id in existing);
    assert "exists" != "active";
    assert "exists" in once <==> b.id in existing;
  }

  /** The buttons the setup loop creates for workspaces `1..n`. */
  function NewButtons(n: nat): seq<WorkspaceButton>
  {
    seq(n, k => WorkspaceButton(k + 1, {"workspace"}))
  }

  /** The workspace box and its buttons. */
  class Workspaces {
    var buttons: seq<WorkspaceButton>

    constructor ()
      ensures buttons == []
    {
      buttons := [];
    }

    /** The setup loop: one button per workspace `1..MaxWorkspaces`,
      * added in order. */
    method Populate()
      modifies this
      ensures buttons == old(buttons) + NewButtons(MaxWorkspaces)
    {
      var i := 1;
      while i <= MaxWorkspaces
        invariant 1 <= i <= MaxWorkspaces + 1
        invariant buttons == old(buttons) + NewButtons(i - 1)
      {
        assert NewButtons(i) == NewButtons(i - 1) + [WorkspaceButton(i, {"workspace"})];
        buttons := buttons + [WorkspaceButton(i, {"workspace"})];
        i := i + 1;
      }
    }

    /** The compositor reported a change: every button runs its callback. */
    method OnChanged(existing: set<int>, active: int)
      modifies this
      ensures |buttons| == |old(buttons)|
      ensures forall k :: 0 <= k < |buttons| ==> buttons[k] == Refreshed(old(buttons)[k], existing, active)
    {
      var k := 0;
      while k < |buttons|
        invariant 0 <= k <= |buttons| == |old(buttons)|
        invariant forall j :: 0 <= j < k ==> buttons[j] == Refreshed(old(buttons)[j], existing, active)
        invariant forall j :: k <= j < |buttons| ==> buttons[j] == old(buttons)[j]
      {
        buttons := buttons[k := Refreshed(buttons[k], existing, active)];
        k := k + 1;
      }
    }
  }

  /** The workspaces a row of buttons switches to. */
  function ButtonIds(bs: seq<WorkspaceButton>): set<int>
  {
    set b | b in bs :: b.id
  }

  /** The setup creates exactly ten buttons, for workspaces 1 to 10 in
    * order, each with only the "workspace" class. */
  lemma NewButtonsNumbered()
    ensures |NewButtons(MaxWorkspaces)| == 10
    ensures forall k :: 0 <= k < 10 ==> NewButtons(MaxWorkspaces)[k].id == k + 1
    ensures forall k :: 0 <= k < 10 ==> NewButtons(MaxWorkspaces)[k].classes == {"workspace"}
    ensures forall n :: n in ButtonIds(NewButtons(MaxWorkspaces)) <==> 1 <= n <= 10
  {
    var bs := NewButtons(MaxWorkspaces);
    forall n | 1 <= n <= 10
      ensures n in ButtonIds(bs)
    {
      assert bs[n - 1] in bs;
    }
  }

  /** After a refresh of the freshly created buttons, exactly the buttons
    * of existing workspaces carry "exists", and the active workspace's
    * button, if it is one of 1..10, is the only one carrying "active". */
  lemma RefreshedNewButtons(existing: set<int>, active: int)
    ensures var bs := seq(10, k requires 0 <= k < 10 => Refreshed(NewButtons(MaxWorkspaces)[k], existing, active));
            (forall k :: 0 <= k < 10 ==> ("exists" in bs[k].classes <==> k + 1 in existing))
            && (set k | 0 <= k < 10 && "active" in bs[k].classes) == (if 1 <= active <= 10 then {active - 1} else {})
  {
    var bs := seq(10, k requires 0 <= k < 10 => Refreshed(NewButtons(MaxWorkspaces)[k], existing, active));
    forall k | 0 <= k < 10
      ensures bs[k].id == k + 1
      ensures "exists" in bs[k].classes <==> k + 1 in existing
      ensures "active" in bs[k].classes <==> k + 1 == active
    {
      RefreshedClasses(NewButtons(MaxWorkspaces)[k], existing, active);
    }
  }

  // ---------------------------------------------------------------------
  // The bar window

  /** The properties the bar passes to `Window`: horizontal fill, the
    * center box of the three module groups, the name "hyprbar", anchored
    * to the top, left and right edges, and an exclusive zone. */
  function HyprBarArgs(): Props
  {
    map[Base(HPack) := Str("fill"), Child := Ref("modules"), Name := Str("hyprbar"),
        Anchor := List([Str("top"), Str("left"), Str("right")]), Exclusive := Bool(true)]
  }

  /** The margins set after the window is built: top, right, bottom, left,
    * with no gap at the bottom. */
  function BarMargins(gaps: real): Value
  {
    List([Num(gaps), Num(gaps), Num(0.0), Num(gaps)])
  }

  /** The bar window, with its margins set from Hyprland's outer gap. */
  function HyprBar(gaps: real): Props
  {
    Window(HyprBarArgs())[Margins := BarMargins(gaps)]
  }

  /** The bar fills horizontally, overriding the centred baseline. */
  lemma HyprBarFills(gaps: real)
    ensures HyprBar(gaps)[Base(HPack)] == Str("fill")
  {
    var o := HyprBarArgs();
    assert Base(HPack) in o && o[Base(HPack)] == Str("fill");
    WindowKeeps(o, Base(HPack));
  }

  /** The bar is named "hyprbar". */
  lemma HyprBarNamed(gaps: real)
    ensures HyprBar(gaps)[Name] == Str("hyprbar")
  {
    var o := HyprBarArgs();
    assert Name in o && o[Name] == Str("hyprbar");
    WindowKeeps(o, Name);
  }

  /** The bar is anchored to the top, left and right edges. */
  lemma HyprBarAnchored(gaps: real)
    ensures HyprBar(gaps)[Anchor] == List([Str("top"), Str("left"), Str("right")])
  {
    var o := HyprBarArgs();
    assert Anchor in o && o[Anchor] == List([Str("top"), Str("left"), Str("right")]);
    WindowKeeps(o, Anchor);
  }

  /** The bar reserves an exclusive zone. */
  lemma HyprBarExclusive(gaps: real)
    ensures HyprBar(gaps)[Exclusivity] == Str("exclusive")
  {
    var o := HyprBarArgs();
    assert Exclusivity !in o && Get(o, Exclusive) == Bool(true);
    WindowExclusivity(o);
  }

  /** The `exclusive` flag itself is not passed on to the toolkit. */
  lemma HyprBarDropsExclusive(gaps: real)
    ensures Exclusive !in HyprBar(gaps)
  {
    WindowDropsExclusive(HyprBarArgs());
  }

  /** The bar sits on the top layer and has the outer gap as its margin on
    * every side but the bottom. */
  lemma HyprBarLayerAndMargins(gaps: real)
    ensures HyprBar(gaps)[Layer] == Str("top")
    ensures HyprBar(gaps)[Margins].items == [Num(gaps), Num(gaps), Num(0.0), Num(gaps)]
  {
    var o := HyprBarArgs();
    assert Layer !in o;
    WindowLayer(o);
  }
}
